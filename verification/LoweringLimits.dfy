/** Where the frontend departs from the manual, and exactly when that shows.  A section gives the meaning
    of the lowered code, the runs on which it is the manual's, and an input on which it is not.  Names that
    are left behind in a scope are in `NamesStay.dfy`, a `switch` without clauses is in `Finished.dfy`. */
module LoweringLimits {
  import opened Options
  import opened Arith
  import opened Ir
  import opened Source
  import opened Lowering
  import opened WorkingGraph
  import opened Static
  import opened Names
  import opened StmtShape
  import opened LoweredEval
  import opened ExprMeaning
  import opened StmtFollows

  // ----- `?:` runs both arms -----

  /** What lowered code makes of `cond ? yes : no`: both arms run before one result is selected. */
  ghost function EvalEager(e: Expr, g: seq<Decl>, env: seq<Value>): (r: Evaluated)
    requires |env| == |g| && e.ECond?
    ensures r.Val? ==> |r.env| == |g|
  {
    match Eval(e.cond, g, env)
    case Fault(t) => Fault(t)
    case Val(c, env1) =>
      match Eval(e.yes, g, env1)
      case Fault(t) => Fault(t)
      case Val(y, env2) =>
        match Eval(e.no, g, env2)
        case Fault(t) => Fault(t)
        case Val(n, env3) => if c.VInt? then Fault(TypeError) else Val(if c.b then y else n, env3)
  }

  /** For all arms, also those that trap or change variables. */
  lemma SimEager(m: Module, f: Function, e: Expr, g: seq<Decl>, env: seq<Value>, slots: seq<Name>, st: Ctx, regs: Regs)
    returns (k: nat, regs1: Regs)
    requires |env| == |g| && e.ECond? && WfExpr(e.cond, g) && WfExpr(e.yes, g) && WfExpr(e.no, g)
    requires Ok(st) && Within(LowerExpr(e, st).0, f)
    requires BindsFor(e, st, g, slots) && Holds(env, slots, regs)
    requires ExprFits(e, st, g, slots)
    ensures Follows(m, f, EvalEager(e, g, env), slots, st, LowerExpr(e, st).0, LowerExpr(e, st).1, regs, k, regs1)
  {
    EagerIsLowered(e, st, g, env, slots);
    WfIsLegal(e.cond, g);
    WfIsLegal(e.yes, g);
    WfIsLegal(e.no, g);
    assert Legal(e, g);
    hide *;
    var ks := Kinds(st.scope, st.types);
    k, regs1 := SimLowered(m, f, e, ks, g, env, slots, st, regs);
    FollowsOf(m, f, e, ks, g, env, slots, st, regs, k, regs1);
  }

  lemma EagerIsLowered(e: Expr, st: Ctx, g: seq<Decl>, env: seq<Value>, slots: seq<Name>)
    requires |env| == |g| && e.ECond? && WfExpr(e.cond, g) && WfExpr(e.yes, g) && WfExpr(e.no, g) &&
             BindsFor(e, st, g, slots)
    requires ExprFits(e, st, g, slots)
    ensures EvalLowered(e, Kinds(st.scope, st.types), g, env) == EvalEager(e, g, env)
  {
    CondFits(e, st, g, slots);
    CondMentions(e);
    hide WfExpr;
    hide BindsFor;
    hide Eval;
    hide ExprFits;
    hide Mentions;
    hide Operate;
    hide Compute;
    hide RawUn;
    hide Guess;
    LoweredSub(e, e.cond, st, g, env, slots);
    var x := Eval(e.cond, g, env);
    if x.Val? {
      LoweredSub(e, e.yes, st, g, x.env, slots);
      var y := Eval(e.yes, g, x.env);
      if y.Val? { LoweredSub(e, e.no, st, g, y.env, slots); }
    }
  }

  lemma CondFits(e: Expr, st: Ctx, g: seq<Decl>, slots: seq<Name>)
    requires e.ECond? && ExprFits(e, st, g, slots)
    ensures ExprFits(e.cond, st, g, slots) && ExprFits(e.yes, st, g, slots) && ExprFits(e.no, st, g, slots)
  {
    hide TypesAt;
  }

  lemma CondMentions(e: Expr)
    requires e.ECond?
    ensures forall x: string :: Mentions(e.cond, x) || Mentions(e.yes, x) || Mentions(e.no, x) ==> Mentions(e, x)
  {
  }

  /** The lowered form runs the first arm and then the second.  That agrees with the manual, in value,
      in the variables and in how it ends: if the first arm is chosen, exactly when it faults or the second
      then has a value and changes nothing; if the second is chosen, exactly when the first faults in the
      same way as the second, or leaves the second's result as it would have been. */
  lemma TernaryIff(e: Expr, g: seq<Decl>, env: seq<Value>)
    requires e.ECond? && |env| == |g|
    requires Eval(e.cond, g, env).Val? && Eval(e.cond, g, env).v.VBool?
    ensures var x := Eval(e.cond, g, env);
            var y := Eval(e.yes, g, x.env);
            EvalEager(e, g, env) == Eval(e, g, env) <==>
            if x.v.b then y.Fault? || (Eval(e.no, g, y.env).Val? && Eval(e.no, g, y.env).env == y.env)
            else if y.Fault? then Eval(e.no, g, x.env) == y
            else Eval(e.no, g, y.env) == Eval(e.no, g, x.env)
  {
    var x := Eval(e.cond, g, env);
    assert Eval(e, g, env) == if x.v.b then Eval(e.yes, g, x.env) else Eval(e.no, g, x.env);
    hide Eval;
  }

  ghost predicate Quiet(e: Expr) {
    forall x: string :: !Changes(e, x)
  }

  lemma {:induction false} QuietKeeps(e: Expr, g: seq<Decl>, env: seq<Value>)
    requires |env| == |g| && Quiet(e)
    ensures Eval(e, g, env).Val? ==> Eval(e, g, env).env == env
  {
    hide Operate;
    hide RawUn;
    match e {
      case EUn(_, arg) =>
        assert Quiet(arg) by { forall x: string ensures !Changes(arg, x) { assert !Changes(e, x); } }
        QuietKeeps(arg, g, env);
      case EBin(_, left, right) =>
        QuietParts(e, left, right);
        QuietKeeps(left, g, env);
        QuietKeeps(right, g, env);
      case ELogic(_, left, right) =>
        QuietParts(e, left, right);
        QuietKeeps(left, g, env);
        QuietKeeps(right, g, env);
      case EInc(_, _, x) => assert Changes(e, x);
      case ECond(cond, yes, no) =>
        assert Quiet(cond) by { forall x: string ensures !Changes(cond, x) { assert !Changes(e, x); } }
        QuietParts(e, yes, no);
        QuietKeeps(cond, g, env);
        QuietKeeps(yes, g, env);
        QuietKeeps(no, g, env);
      case _ =>
    }
  }

  lemma QuietParts(e: Expr, a: Expr, b: Expr)
    requires Quiet(e) && forall x: string :: Changes(a, x) || Changes(b, x) ==> Changes(e, x)
    ensures Quiet(a) && Quiet(b)
  {
  }

  /** Without `++` and `--` in the arms: the arm that is not chosen has a value, or the chosen arm would
      have trapped first, or in the same way. */
  lemma TernaryQuietIff(e: Expr, g: seq<Decl>, env: seq<Value>)
    requires e.ECond? && |env| == |g| && Quiet(e.yes) && Quiet(e.no)
    requires Eval(e.cond, g, env).Val? && Eval(e.cond, g, env).v.VBool?
    ensures var x := Eval(e.cond, g, env);
            var y, n := Eval(e.yes, g, x.env), Eval(e.no, g, x.env);
            EvalEager(e, g, env) == Eval(e, g, env) <==> if x.v.b then y.Fault? || n.Val? else y.Val? || y == n
  {
    var x := Eval(e.cond, g, env);
    QuietKeeps(e.yes, g, x.env);
    QuietKeeps(e.no, g, x.env);
    TernaryIff(e, g, env);
    hide Eval;
  }

  /** `true ? 1 : 1 / 0` is 1, but its lowered form divides by zero. */
  lemma TernaryTraps()
    ensures var e := ECond(EBool(true), ELit(1), EBin(Div, ELit(1), ELit(0)));
            WfExpr(e.cond, []) && WfExpr(e.yes, []) && WfExpr(e.no, []) &&
            Eval(e, [], []) == Val(VInt(1), []) && EvalEager(e, [], []) == Fault(DivZero)
  {
    var e := ECond(EBool(true), ELit(1), EBin(Div, ELit(1), ELit(0)));
    assert Eval(e.no, [], []) == Fault(DivZero);
  }

  // ----- `x op= e` reads `x` late -----

  /** For a target that holds `a` before `e` runs and `c` after it, where `e` is `b`: when reading the
      one or the other makes no difference.  Sums and products differ as soon as one of them fits. */
  predicate LateAgrees(op: BinOp, a: int, c: int, b: int) {
    match op
    case Add => a == c || !(InInt64(a + b) || InInt64(c + b))
    case Sub => a == c || !(InInt64(a - b) || InInt64(c - b))
    case Mul => a == c || b == 0 || !(InInt64(a * b) || InInt64(c * b))
    case Div => b == 0 || TruncDiv(a, b) == TruncDiv(c, b)
    case _ => false
  }

  lemma CalculateLate(op: BinOp, a: int, c: int, b: int)
    requires op in {Add, Sub, Mul, Div} && InInt64(a) && InInt64(c)
    ensures Calculate(op, a, b) == Calculate(op, c, b) <==> LateAgrees(op, a, c, b)
  {
    if op.Mul? {
      SameProduct(a, c, b);
    } else if op.Div? && b != 0 {
      TruncDivShrinks(a, b);
      TruncDivShrinks(c, b);
      hide TruncDiv;
    }
  }

  lemma SameProduct(a: int, c: int, b: int)
    ensures a * b == c * b <==> a == c || b == 0
  {
    if a * b == c * b && b != 0 {
      assert (a - c) * b == 0;
      if a > c { MulMono(1, a - c, if b > 0 then b else -b); }
      if a < c { MulMono(1, c - a, if b > 0 then b else -b); }
    }
  }

  /** The lowered assignment does what the manual says, results and faults, exactly when `e` faults
      or reading the target late makes no difference. */
  lemma CompoundIff(s: Stmt, g: seq<Decl>, env: seq<Value>, fuel: nat)
    requires s.SAssign? && |env| == |g| && Find(g, s.x).Some? && s.aop.Some? && s.aop.value in {Add, Sub, Mul, Div}
    requires var x := Eval(s.rhs, g, env);
             var at := Find(g, s.x).value;
             x.Val? ==> x.v.VInt? && env[at].VInt? && x.env[at].VInt? && InInt64(env[at].n) && InInt64(x.env[at].n)
    ensures var x := Eval(s.rhs, g, env);
            var at := Find(g, s.x).value;
            LateAssign(s, g, env) == Exec(s, g, env, fuel) <==>
            x.Fault? || LateAgrees(s.aop.value, env[at].n, x.env[at].n, x.v.n)
  {
    CompoundParts(s, g, env, START, fuel);
    var at := Find(g, s.x).value;
    var x := Eval(s.rhs, g, env);
    hide Eval;
    hide Exec;
    hide LateAssign;
    hide LateAgrees;
    hide Calculate;
    if x.Val? {
      CalculateLate(s.aop.value, env[at].n, x.env[at].n, x.v.n);
      var a, b := Calculate(s.aop.value, env[at].n, x.v.n), Calculate(s.aop.value, x.env[at].n, x.v.n);
      if a.Good? && b.Good? { assert x.env[at := a.v][at] == a.v && x.env[at := b.v][at] == b.v; }
    }
  }

  /** `x += x++` from 1: the manual's answer is 2, the lowered form's 3. */
  lemma CompoundOrder(fuel: nat)
    ensures var g := [Decl("x", TInt)];
            var s := SAssign("x", Some(Add), EInc(true, false, "x"));
            Find(g, "x") == Some(0) && WfExpr(s.rhs, g) &&
            Exec(s, g, [VInt(1)], fuel) == Done(Normal, [VInt(2)]) &&
            LateAssign(s, g, [VInt(1)]) == Done(Normal, [VInt(3)])
  {
    var g := [Decl("x", TInt)];
    var s := SAssign("x", Some(Add), EInc(true, false, "x"));
    assert Eval(s.rhs, g, [VInt(1)]) == Val(VInt(1), [VInt(2)]);
  }

  // ----- a declaration sees its own name -----

  /** The lowering scope inside the initialiser: the new name is there already. */
  function KindsIn(d: Decl, st: Ctx): Kinds {
    var ir := Local(d.name, st.varId + 1);
    Kinds(st.scope + [Binding(d.name, ir)], st.types[ir := d.ty])
  }

  /** What lowered code makes of `T x = e`: `e` sees the new `x`, which holds `own`, or nothing yet. */
  ghost function OwnDecl(s: Stmt, st: Ctx, g: seq<Decl>, env: seq<Value>, own: seq<Value>): Executed
    requires s.SDecl? && s.init.Some? && |env| == |g|
  {
    match EvalLowered(s.init.value, KindsIn(s.decl, st), g + [s.decl], env + own)
    case Fault(t) => Faulted(t)
    case Val(v, env1) => Done(Normal, env1[..|g|] + [v])
  }

  /** What the new register holds when the declaration is reached: nothing the first time. */
  function OwnOf(ir: Name, regs: Regs): seq<Value> {
    if ir in regs then [regs[ir]] else []
  }

  /** For every initialiser, on the first round of a loop and on later ones. */
  lemma SimOwn(m: Module, f: Function, s: Stmt, g: seq<Decl>, env: seq<Value>, slots: seq<Name>, exits: Exits,
               st: Ctx, regs: Regs, fuel: nat)
    returns (k: nat, regs1: Regs)
    requires s.SDecl? && s.init.Some? && Legal(s.init.value, g + [s.decl])
    requires |env| == |g| && Ready(st, g, slots) && Holds(env, slots, regs) && Within(LowerStmt(s, st), f)
    ensures var ir := Local(s.decl.name, st.varId + 1);
            FollowsStmt(m, f, OwnDecl(s, st, g, env, OwnOf(ir, regs)), slots, slots + [ir], exits,
                        Here(st, regs), End(LowerStmt(s, st)), k, regs1, fuel)
  {
    hide *;
    var d, e := s.decl, s.init.value;
    var ir := Local(d.name, st.varId + 1);
    var h, more, own := g + [d], slots + [ir], OwnOf(ir, regs);
    var s3 := OwnStart(s, st, g, slots, f);
    var (s4, v) := LowerExpr(e, s3);
    DeclHead(m, f, st, d, g, slots, regs);
    HoldsOwn(env, slots, regs, ir);
    var k1, r1 := SimLowered(m, f, e, KindsIn(d, st), h, env + own, more, s3, regs);
    FollowsOf(m, f, e, KindsIn(d, st), h, env + own, more, s3, regs, k1, r1);
    var x := EvalLowered(e, KindsIn(d, st), h, env + own);
    OwnIs(s, st, g, env, own);
    k, regs1 := k1, r1;
    if x.Fault? {
      FaultOf(m, f, x, more, s3, s4, v, regs, k1, r1);
      LeadsEnds(m, f, Here(st, regs), 0, Here(s3, regs), k1, Trapped(x.t));
      FollowsFault(m, f, x.t, slots, more, exits, Here(st, regs), End(LowerStmt(s, st)), k, regs1, fuel);
    } else {
      HoldsOf(m, f, x, more, s3, s4, v, regs, k1, r1);
      LeadsTrans(m, f, Here(st, regs), 0, Here(s3, regs), k1, Here(s4, r1));
      regs1 := r1[ir := x.v];
      StoreStep(ir, v, r1);
      SimEmit(m, f, Here(st, regs), k1, s4, StoreVar(ir, v), r1, regs1);
      HoldsFinal(x.env, slots, st.varId, r1, ir, x.v, |g|);
      HereSpot(Emit(s4, StoreVar(ir, v)), regs1);
      FollowsNormal(m, f, x.env[..|g|] + [x.v], slots, more, exits, Here(st, regs), End(LowerStmt(s, st)), k, regs1,
                    fuel);
    }
  }

  /** The parts of a lowered declaration. */
  lemma OwnStart(s: Stmt, st: Ctx, g: seq<Decl>, slots: seq<Name>, f: Function) returns (s3: Ctx)
    requires s.SDecl? && s.init.Some? && Ready(st, g, slots) && Within(LowerStmt(s, st), f)
    ensures var d := s.decl;
            var (s1, ir) := NextVar(st, d.name);
            s3 == Emit(Define(s1, d, ir), VarDecl(ir)) && ir == Local(d.name, st.varId + 1)
    ensures var (s4, v) := LowerExpr(s.init.value, s3);
            var ir := Local(s.decl.name, st.varId + 1);
            LowerStmt(s, st) == Emit(s4, StoreVar(ir, v)) && Ok(s3) && Ok(s4) &&
            Within(s4, f) && Within(s3, f) && KindsIn(s.decl, st) == Kinds(s3.scope, s3.types)
    ensures BindsFor(s.init.value, s3, g + [s.decl], slots + [Local(s.decl.name, st.varId + 1)])
    ensures Slots(slots, st.varId) && |slots| == |g|
  {
    hide Run;
    hide Within;
    hide Ready;
    hide Grows;
    hide Emit;
    hide Ok;
    hide Binds;
    hide LowerExpr;
    var d, e := s.decl, s.init.value;
    var (s1, ir) := NextVar(st, d.name);
    var s2 := Define(s1, d, ir);
    s3 := Emit(s2, VarDecl(ir));
    var (s4, v) := LowerExpr(e, s3);
    EmitIs(s2, VarDecl(ir));
    DeclOk(st, d, g, slots);
    LowerExprGrows(e, s3);
    ResolveNewest(st, d, ir);
    assert LowerStmt(s, st) == Emit(s4, StoreVar(ir, v));
    EmitGrows(s4, StoreVar(ir, v));
    WithinBefore(s4, Emit(s4, StoreVar(ir, v)), f);
    WithinBefore(s3, s4, f);
    ReadyOk(st, g, slots);
    BindsDefine(st, g, slots, d);
    BindsSame(s2, s3, g + [d], slots + [ir]);
    ForExpr(e, s3, g + [d], slots + [ir]);
    BindsSlots(st, g, slots);
  }

  lemma HoldsOwn(env: seq<Value>, slots: seq<Name>, regs: Regs, ir: Name)
    requires Holds(env, slots, regs) && |env| == |slots|
    ensures Holds(env + OwnOf(ir, regs), slots + [ir], regs)
  {
  }

  lemma OwnIs(s: Stmt, st: Ctx, g: seq<Decl>, env: seq<Value>, own: seq<Value>)
    requires s.SDecl? && s.init.Some? && |env| == |g|
    ensures var x := EvalLowered(s.init.value, KindsIn(s.decl, st), g + [s.decl], env + own);
            x.Val? ==> |x.env| >= |g|
    ensures var x := EvalLowered(s.init.value, KindsIn(s.decl, st), g + [s.decl], env + own);
            OwnDecl(s, st, g, env, own) == if x.Fault? then Faulted(x.t) else Done(Normal, x.env[..|g|] + [x.v])
  {
    hide EvalLowered;
    var x := EvalLowered(s.init.value, KindsIn(s.decl, st), g + [s.decl], env + own);
    assert x.Val? ==> |x.env| == |env + own|;
  }

  lemma StoreStep(ir: Name, v: Name, regs: Regs)
    requires v in regs
    ensures Step(StoreVar(ir, v), regs) == Next(regs[ir := regs[v]])
  {
  }

  lemma HoldsFinal(env: seq<Value>, slots: seq<Name>, n: nat, regs: Regs, ir: Name, v: Value, size: nat)
    requires Holds(env, slots + [ir], regs) && Slots(slots, n) && ir.Local? && ir.id > n && |slots| == size <= |env|
    ensures Holds(env[..size] + [v], slots + [ir], regs[ir := v])
  {
    assert forall i :: 0 <= i < size ==> (slots + [ir])[i] == slots[i];
  }

  lemma HereSpot(st: Ctx, regs: Regs)
    ensures Here(st, regs) == SpotAt(End(st), regs)
  {
  }

  /** Left to right, with short circuits: the evaluation comes to `x`.  Both arms of `?:` are run. */
  ghost predicate Reaches(e: Expr, x: string, g: seq<Decl>, env: seq<Value>)
    requires |env| == |g|
  {
    match e
    case EVar(y) => y == x
    case EInc(_, _, y) => y == x
    case EUn(_, arg) => Reaches(arg, x, g, env)
    case EBin(_, left, right) =>
      Reaches(left, x, g, env) ||
      var l := Eval(left, g, env);
      l.Val? && Reaches(right, x, g, l.env)
    case ELogic(isAnd, left, right) =>
      Reaches(left, x, g, env) ||
      var l := Eval(left, g, env);
      l.Val? && l.v == VBool(isAnd) && Reaches(right, x, g, l.env)
    case ECond(cond, yes, no) =>
      Reaches(cond, x, g, env) ||
      var c := Eval(cond, g, env);
      c.Val? && (Reaches(yes, x, g, c.env) || Reaches(no, x, g, c.env))
    case _ => false
  }

  /** The guess of a type looks at the leftmost operand, which runs first. */
  lemma {:induction false} TypeUnread(e: Expr, d: Decl, g: seq<Decl>, ts: seq<Ty>, env: seq<Value>)
    requires |env| == |g| == |ts| && WfExpr(e, g) && !Reaches(e, d.name, g, env) && Eval(e, g, env).Val?
    ensures TypeOf(e, g + [d], ts + [d.ty]) == TypeOf(e, g, ts)
  {
    hide Operate;
    hide RawUn;
    match e {
      case EVar(y) => FindNewest(g, d, y);
      case EInc(_, _, y) => FindNewest(g, d, y);
      case EUn(op, arg) => if op == Neg && arg == ELit(-INT_MIN) { } else { TypeUnread(arg, d, g, ts, env); }
      case EBin(op, left, _) => if IsArithmetic(op) { TypeUnread(left, d, g, ts, env); }
      case ECond(_, yes, _) => if yes.EVar? { FindNewest(g, d, yes.x); }
      case _ =>
    }
  }

  lemma {:induction false} WfMore(e: Expr, d: Decl, g: seq<Decl>)
    requires WfExpr(e, g)
    ensures WfExpr(e, g + [d])
  {
    match e {
      case EVar(y) => FindNewest(g, d, y);
      case EInc(_, _, y) => FindNewest(g, d, y);
      case EUn(op, arg) => if !(op == Neg && arg == ELit(-INT_MIN)) { WfMore(arg, d, g); }
      case EBin(_, left, right) => WfMore(left, d, g); WfMore(right, d, g);
      case ELogic(_, left, right) => WfMore(left, d, g); WfMore(right, d, g);
      case ECond(cond, yes, no) => WfMore(cond, d, g); WfMore(yes, d, g); WfMore(no, d, g);
      case _ =>
    }
  }

  /** The recorded types, with the declared one. */
  lemma TypesIn(d: Decl, st: Ctx, slots: seq<Name>)
    requires Slots(slots, st.varId)
    ensures var ir := Local(d.name, st.varId + 1);
            TypesAt(st.types[ir := d.ty], slots + [ir]) == TypesAt(st.types, slots) + [d.ty]
  {
    var ir := Local(d.name, st.varId + 1);
    TypesApart(st.types, ir, d.ty, slots);
    var ts := TypesAt(st.types[ir := d.ty], slots + [ir]);
    assert ts == TypesAt(st.types[ir := d.ty], slots) + [d.ty];
  }

  /** What the text has for int is guessed as int inside the declaration. */
  lemma UnreadGuess(e: Expr, d: Decl, st: Ctx, g: seq<Decl>, slots: seq<Name>)
    requires var ir := Local(d.name, st.varId + 1); Binds(Define(NextVar(st, d.name).0, d, ir), g + [d], slots + [ir])
    requires |slots| == |g| && Slots(slots, st.varId) && WfExpr(e, g)
    requires TypeOf(e, g + [d], TypesAt(st.types, slots) + [d.ty]) == TInt
    ensures GuessBy(e, KindsIn(d, st)) == TInt
  {
    var ir := Local(d.name, st.varId + 1);
    var s2 := Define(NextVar(st, d.name).0, d, ir);
    TypesIn(d, st, slots);
    WfMore(e, d, g);
    ForExpr(e, s2, g + [d], slots + [ir]);
    GuessIsType(e, s2, g + [d], slots + [ir]);
    GuessKinds(e, s2);
  }

  /** Evaluation that does not come to the name is the same inside and outside its scope. */
  lemma {:induction false} OwnUnread(e: Expr, d: Decl, st: Ctx, g: seq<Decl>, env: seq<Value>, own: seq<Value>,
                                     slots: seq<Name>)
    requires |env| == |g| && WfExpr(e, g) && ExprFits(e, st, g, slots) && !Reaches(e, d.name, g, env)
    requires var ir := Local(d.name, st.varId + 1); Binds(Define(NextVar(st, d.name).0, d, ir), g + [d], slots + [ir])
    requires Slots(slots, st.varId)
    ensures var x := Eval(e, g, env);
            EvalLowered(e, KindsIn(d, st), g + [d], env + own) == if x.Val? then Val(x.v, x.env + own) else x
    decreases e
  {
    hide Operate;
    hide RawUn;
    hide IntLike;
    hide Binds;
    hide KindsIn;
    match e {
      case EVar(y) => FindNewest(g, d, y);
      case EInc(_, _, y) =>
        FindNewest(g, d, y);
        var k := Find(g, y).value;
        var w := VInt(if env[k].VInt? then (if e.up then env[k].n + 1 else env[k].n - 1) else 0);
        assert (env + own)[k := w] == env[k := w] + own;
      case EUn(op, arg) => if op == Neg && arg == ELit(-INT_MIN) { } else { OwnUnread(arg, d, st, g, env, own, slots); }
      case EBin(op, left, right) =>
        OwnUnread(left, d, st, g, env, own, slots);
        var x := Eval(left, g, env);
        if x.Val? {
          OwnUnread(right, d, st, g, x.env, own, slots);
          if Eval(right, g, x.env).Val? { OwnOperator(e, d, st, g, env, slots); }
        }
      case ELogic(isAnd, left, right) =>
        OwnUnread(left, d, st, g, env, own, slots);
        var x := Eval(left, g, env);
        if x.Val? && x.v == VBool(isAnd) { OwnUnread(right, d, st, g, x.env, own, slots); }
      case ECond(cond, yes, no) =>
        OwnUnread(cond, d, st, g, env, own, slots);
        var x := Eval(cond, g, env);
        if x.Val? {
          OwnUnread(yes, d, st, g, x.env, own, slots);
          SimpleEval(yes, g, x.env);
          OwnUnread(no, d, st, g, x.env, own, slots);
          SimpleEval(no, g, x.env);
        }
      case _ =>
    }
  }

  lemma OwnOperator(e: Expr, d: Decl, st: Ctx, g: seq<Decl>, env: seq<Value>, slots: seq<Name>)
    requires e.EBin? && |env| == |g| && WfExpr(e, g) && ExprFits(e, st, g, slots) && !Reaches(e, d.name, g, env)
    requires var ir := Local(d.name, st.varId + 1); Binds(Define(NextVar(st, d.name).0, d, ir), g + [d], slots + [ir])
    requires Slots(slots, st.varId)
    requires var x := Eval(e.left, g, env); x.Val? && Eval(e.right, g, x.env).Val?
    ensures forall a, b :: Compute(e.op, IntLike(e.left, e.right, KindsIn(d, st)), a, b) == Operate(e.op, a, b)
  {
    if IsArithmetic(e.op) {
      var ts := TypesAt(st.types, slots);
      TypeUnread(e.left, d, g, ts, env);
      TypeUnread(e.right, d, g, ts, Eval(e.left, g, env).env);
      hide Binds;
      hide KindsIn;
      UnreadGuess(e.left, d, st, g, slots);
      UnreadGuess(e.right, d, st, g, slots);
    }
  }

  /** Evaluation that comes to the name stops there, while nothing has been written to it. */
  lemma {:induction false} OwnReached(e: Expr, d: Decl, st: Ctx, g: seq<Decl>, env: seq<Value>, slots: seq<Name>)
    requires |env| == |g| && WfExpr(e, g) && ExprFits(e, st, g, slots) && Reaches(e, d.name, g, env)
    requires Slots(slots, st.varId)
    requires var ir := Local(d.name, st.varId + 1); Binds(Define(NextVar(st, d.name).0, d, ir), g + [d], slots + [ir])
    ensures EvalLowered(e, KindsIn(d, st), g + [d], env) == Fault(Undefined)
    decreases e
  {
    hide Operate;
    hide RawUn;
    hide IntLike;
    hide Binds;
    hide KindsIn;
    match e {
      case EVar(y) => FindNewest(g, d, y);
      case EInc(_, _, y) => FindNewest(g, d, y);
      case EUn(_, arg) => OwnReached(arg, d, st, g, env, slots);
      case EBin(op, left, right) =>
        if Reaches(left, d.name, g, env) {
          OwnReached(left, d, st, g, env, slots);
        } else {
          OwnBefore(left, d, st, g, env, slots);
          OwnReached(right, d, st, g, Eval(left, g, env).env, slots);
        }
      case ELogic(isAnd, left, right) =>
        if Reaches(left, d.name, g, env) {
          OwnReached(left, d, st, g, env, slots);
        } else {
          OwnBefore(left, d, st, g, env, slots);
          OwnReached(right, d, st, g, Eval(left, g, env).env, slots);
        }
      case ECond(cond, yes, no) =>
        if Reaches(cond, d.name, g, env) {
          OwnReached(cond, d, st, g, env, slots);
        } else {
          OwnBefore(cond, d, st, g, env, slots);
          var x := Eval(cond, g, env);
          if Reaches(yes, d.name, g, x.env) {
            OwnReached(yes, d, st, g, x.env, slots);
          } else {
            OwnBefore(yes, d, st, g, x.env, slots);
            SimpleEval(yes, g, x.env);
            OwnReached(no, d, st, g, x.env, slots);
          }
        }
    }
  }

  lemma OwnBefore(e: Expr, d: Decl, st: Ctx, g: seq<Decl>, env: seq<Value>, slots: seq<Name>)
    requires |env| == |g| && WfExpr(e, g) && ExprFits(e, st, g, slots) && !Reaches(e, d.name, g, env)
    requires Slots(slots, st.varId)
    requires var ir := Local(d.name, st.varId + 1); Binds(Define(NextVar(st, d.name).0, d, ir), g + [d], slots + [ir])
    ensures EvalLowered(e, KindsIn(d, st), g + [d], env) == Eval(e, g, env)
  {
    OwnUnread(e, d, st, g, env, [], slots);
    hide EvalLowered;
    hide Eval;
    assert env + [] == env;
    var x := Eval(e, g, env);
    if x.Val? { assert x.env + [] == x.env; }
  }

  /** A declaration with an initialiser that is legal where it stands: the lowered form does what the manual
      says exactly if its evaluation does not come to the declared name, or the manual's ends in the same trap. */
  lemma OwnNameIff(s: Stmt, st: Ctx, g: seq<Decl>, env: seq<Value>, slots: seq<Name>, fuel: nat)
    requires s.SDecl? && s.init.Some? && WfExpr(s.init.value, g) && ExprFits(s.init.value, st, g, slots)
    requires |env| == |g| && Binds(st, g, slots)
    ensures OwnDecl(s, st, g, env, []) == Exec(s, g, env, fuel) <==>
            !Reaches(s.init.value, s.decl.name, g, env) || Exec(s, g, env, fuel) == Faulted(Undefined)
    ensures !Reaches(s.init.value, s.decl.name, g, env) ==>
              forall own: seq<Value> :: |own| <= 1 ==> OwnDecl(s, st, g, env, own) == Exec(s, g, env, fuel)
  {
    var d, e := s.decl, s.init.value;
    var x := Eval(e, g, env);
    BindsDefine(st, g, slots, d);
    if Reaches(e, d.name, g, env) {
      assert env + [] == env;
      OwnReached(e, d, st, g, env, slots);
    } else {
      forall own: seq<Value> | |own| <= 1
        ensures OwnDecl(s, st, g, env, own) == Exec(s, g, env, fuel)
      {
        OwnUnread(e, d, st, g, env, own, slots);
        hide EvalLowered;
        if x.Val? { assert (x.env + own)[..|g|] == x.env; }
      }
    }
  }

  /** `T x = x` reads the new variable, which nothing has written, even where an outer `x` has a value. */
  lemma OwnNameIsUndefined(m: Module, f: Function, d: Decl, g: seq<Decl>, slots: seq<Name>, st: Ctx, regs: Regs)
    requires Ready(st, g, slots) && Local(d.name, st.varId + 1) !in regs
    requires Within(LowerStmt(SDecl(d, Some(EVar(d.name))), st), f)
    ensures Run(m, f, Here(st, regs), 0) == Trapped(Undefined)
  {
    hide Run;
    hide Leads;
    hide Within;
    hide Ready;
    hide Ok;
    hide Emit;
    hide Grows;
    hide Binds;
    var (s1, ir) := NextVar(st, d.name);
    var s2 := Define(s1, d, ir);
    var s3 := Emit(s2, VarDecl(ir));
    var (s4, dst) := NextTemp(s3);
    var load := LoadVar(dst, ir);
    EmitIs(s2, VarDecl(ir));
    EmitIs(s4, load);
    ResolveNewest(st, d, ir);
    assert LowerStmt(SDecl(d, Some(EVar(d.name))), st) == Emit(Emit(s4, load), StoreVar(ir, dst));
    DeclOk(st, d, g, slots);
    TempGrows(s3, 1);
    EmitGrows(s4, load);
    EmitGrows(Emit(s4, load), StoreVar(ir, dst));
    WithinBefore(Emit(s4, load), Emit(Emit(s4, load), StoreVar(ir, dst)), f);
    WithinBefore(s4, Emit(s4, load), f);
    WithinTwin(s4, s3, f);
    DeclHead(m, f, st, d, g, slots, regs);
    assert Here(s4, regs) == Here(s3, regs);
    EmitStop(m, f, s4, load, regs, Trapped(Undefined));
    LeadsEnds(m, f, Here(st, regs), 0, Here(s3, regs), 0, Trapped(Undefined));
    EndsRun(m, f, Here(st, regs), 0, Trapped(Undefined));
  }

  /** `int x = x + 1` inside the scope of an `x` that is 1 should be 2; lowered, it reads the new `x`. */
  lemma OwnSumFails(st: Ctx, g: seq<Decl>, env: seq<Value>, slots: seq<Name>, fuel: nat)
    requires |env| == |g| && Binds(st, g, slots) && Find(g, "x").Some?
    requires TypeOfName(st, slots[Find(g, "x").value]) == TInt
    requires env[Find(g, "x").value] == VInt(1)
    ensures var s := SDecl(Decl("x", TInt), Some(EBin(Add, EVar("x"), ELit(1))));
            Exec(s, g, env, fuel) == Done(Normal, env + [VInt(2)]) && OwnDecl(s, st, g, env, []) == Faulted(Undefined)
  {
    var e := EBin(Add, EVar("x"), ELit(1));
    var s := SDecl(Decl("x", TInt), Some(e));
    assert Eval(EVar("x"), g, env) == Val(VInt(1), env) && Eval(ELit(1), g, env) == Val(VInt(1), env);
    assert Reaches(EVar("x"), "x", g, env);
    BindsDefine(st, g, slots, s.decl);
    BindsSlots(st, g, slots);
    var ts := TypesAt(st.types, slots);
    assert TypeOf(EVar("x"), g, ts) == TInt && TypedExpr(EVar("x"), g, ts) && TypedExpr(ELit(1), g, ts);
    assert ExprFits(e, st, g, slots);
    OwnReached(e, s.decl, st, g, env, slots);
    hide EvalLowered;
    assert env + [] == env;
  }

  /** `bool x = c && x` works as long as `c` is false. */
  lemma OwnGuardWorks(st: Ctx, g: seq<Decl>, env: seq<Value>, slots: seq<Name>, fuel: nat)
    requires |env| == |g| && Binds(st, g, slots) && Find(g, "x").Some? && Find(g, "c").Some?
    requires env[Find(g, "c").value] == VBool(false)
    ensures var s := SDecl(Decl("x", TBool), Some(ELogic(true, EVar("c"), EVar("x"))));
            Exec(s, g, env, fuel) == Done(Normal, env + [VBool(false)]) &&
            OwnDecl(s, st, g, env, []) == Exec(s, g, env, fuel)
  {
    var e := ELogic(true, EVar("c"), EVar("x"));
    var s := SDecl(Decl("x", TBool), Some(e));
    assert Eval(EVar("c"), g, env) == Val(VBool(false), env);
    assert !Reaches(EVar("c"), "x", g, env);
    BindsSlots(st, g, slots);
    assert ExprFits(e, st, g, slots);
    OwnNameIff(s, st, g, env, slots, fuel);
  }

  // ----- the variable of a `for` outlives the loop -----

  /** After `for (T i = …; …; …)` a visible name means what it meant before, unless it is `i`. */
  lemma ForNameStays(s: Stmt, st: Ctx, g: seq<Decl>, slots: seq<Name>, x: string)
    requires s.SFor? && s.start.SDecl? && Ready(st, g, slots) && WfFor(s, g) && Find(g, x).Some?
    ensures Lookup(LowerStmt(s, st).scope, x) == Lookup(st.scope, x) <==> x != s.start.decl.name
  {
    hide LowerStmt;
    hide WfFor;
    var d := s.start.decl;
    ForLeaves(s, st, g, slots);
    var r, more := LowerStmt(s, st), SlotsAfter(s.start, slots, st);
    assert NameAgrees(st, g, slots, x) && NameAgrees(r, g + [d], more, x);
    FindNewest(g, d, x);
  }

  // ----- a `for` with a part left out -----

  function Present<Node>(parts: seq<Option<Node>>): seq<Node> {
    if parts == [] then [] else (if parts[0].Some? then [parts[0].value] else []) + Present(parts[1..])
  }

  /** The parser adds the parts that are there, and the loop body after them. */
  function ForChildren<Node>(parts: seq<Option<Node>>, loop: Node): seq<Node> {
    Present(parts) + [loop]
  }

  /** Lowering takes the parts by position. */
  function ForPart<Node>(children: seq<Node>, i: nat): Option<Node> {
    if i + 1 < |children| then Some(children[i]) else None
  }

  predicate NoGap<Node>(parts: seq<Option<Node>>) {
    forall i, j :: 0 <= i < j < |parts| && parts[j].Some? ==> parts[i].Some?
  }

  predicate PartsFound<Node(==)>(parts: seq<Option<Node>>, loop: Node) {
    forall i :: 0 <= i < |parts| ==> ForPart(ForChildren(parts, loop), i) == parts[i]
  }

  /** Each part is taken for what it is exactly if no part is missing before one that is there. */
  lemma {:induction false} ForPartsIff<Node>(parts: seq<Option<Node>>, loop: Node)
    ensures PartsFound(parts, loop) <==> NoGap(parts)
  {
    if parts != [] {
      var rest := parts[1..];
      ForPartsIff(rest, loop);
      var some, less := ForChildren(parts, loop), ForChildren(rest, loop);
      if parts[0].Some? {
        assert some == [parts[0].value] + less;
        assert forall i :: 0 <= i < |rest| ==> ForPart(some, i + 1) == ForPart(less, i) && parts[i + 1] == rest[i];
        assert PartsFound(parts, loop) ==> PartsFound(rest, loop) by {
          assert forall i :: 0 <= i < |rest| ==> ForPart(some, i + 1) == ForPart(less, i);
        }
        assert PartsFound(rest, loop) ==> PartsFound(parts, loop);
      } else {
        assert some == less;
        NonePresent(rest);
      }
    }
  }

  lemma {:induction false} NonePresent<Node>(parts: seq<Option<Node>>)
    ensures Present(parts) == [] <==> forall i :: 0 <= i < |parts| ==> parts[i].None?
  {
    if parts != [] { NonePresent(parts[1..]); }
  }

  /** `for (; c; s)` runs `c` once as its start and tests `s`. */
  lemma ForWithoutStart<Node>(c: Node, s: Node, loop: Node)
    ensures var children := ForChildren([None, Some(c), Some(s)], loop);
            ForPart(children, 0) == Some(c) && ForPart(children, 1) == Some(s) && ForPart(children, 2) == None
  {
    var last := [Some(s)];
    var later := [Some(c)] + last;
    var parts := [None] + later;
    assert parts == [None, Some(c), Some(s)] && parts[1..] == later && later[1..] == last && last[1..] == [];
    assert Present(last) == [s] + Present(last[1..]);
    assert Present(later) == [c] + Present(last);
    assert Present(parts) == [] + Present(later);
    assert ForChildren(parts, loop) == [c, s, loop];
  }

  // ----- arithmetic without checks -----

  /** Operands of unknown type get no checks.  The bare instruction agrees with the manual exactly
      when no check that it lacks would have fired. */
  lemma UncheckedIff(op: BinOp, l: Name, r: Name, dst: Name, regs: Regs)
    requires l in regs && r in regs
    ensures Step(Bin(dst, op, l, r), regs) == Write(dst, Operate(op, regs[l], regs[r]), regs) <==>
            forall i :: 0 <= i < |Checks(op, l, r, true)| ==> Step(Checks(op, l, r, true)[i], regs) == Next(regs)
  {
    ChecksAre(op, l, r, true, dst, regs);
    var code := Checks(op, l, r, true);
    if code != [] && Step(code[0], regs) != Next(regs) {
      BareStep(op, regs[l], regs[r]);
    }
  }

  /** A bare instruction never reports what a check reports. */
  lemma BareStep(op: BinOp, l: Value, r: Value)
    ensures RawBin(op, l, r).Bad? ==> RawBin(op, l, r).t in {Undefined, TypeError}
  {
  }

  /** `x++` is `x = x + 1` and `x--` is `x = x - 1`, unless `x` holds the largest or the smallest integer:
      no check guards them. */
  lemma IncrementIff(g: seq<Decl>, env: seq<Value>, up: bool, prefix: bool, x: string, fuel: nat)
    requires |env| == |g| && Find(g, x).Some?
    requires env[Find(g, x).value].VInt? ==> InInt64(env[Find(g, x).value].n)
    ensures Exec(SExpr(EInc(up, prefix, x)), g, env, fuel) ==
            Exec(SAssign(x, Some(if up then Add else Sub), ELit(1)), g, env, fuel) <==>
            env[Find(g, x).value] != VInt(if up then INT_MAX else INT_MIN)
  {
    assert Eval(ELit(1), g, env) == Val(VInt(1), env);
  }

  /** `-e` is `0 - e` unless `e` is the smallest integer. */
  lemma NegationIff(e: Expr, g: seq<Decl>, env: seq<Value>)
    requires |env| == |g| && Eval(e, g, env).Val? && Eval(e, g, env).v.VInt? && InInt64(Eval(e, g, env).v.n)
    ensures Eval(EUn(Neg, e), g, env) == Eval(EBin(Sub, ELit(0), e), g, env) <==> Eval(e, g, env).v != VInt(INT_MIN)
  {
    NegationParts(e, g, env);
    hide Eval;
  }

  lemma NegationParts(e: Expr, g: seq<Decl>, env: seq<Value>)
    requires |env| == |g| && Eval(e, g, env).Val?
    ensures var x := Eval(e, g, env);
            Eval(EUn(Neg, e), g, env) ==
            (match RawUn(Neg, x.v) case Good(w) => Val(w, x.env) case Bad(t) => Fault(t)) &&
            Eval(EBin(Sub, ELit(0), e), g, env) ==
            match Operate(Sub, VInt(0), x.v) case Good(w) => Val(w, x.env) case Bad(t) => Fault(t)
  {
    hide Operate;
    hide RawUn;
    assert Eval(ELit(0), g, env) == Val(VInt(0), env);
  }
}
