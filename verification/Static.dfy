/** The static conditions under which lowering keeps the meaning.  Most are what the analyzer asks: names
    are visible, jumps have targets.  Arithmetic must be on operands that the frontend takes for int; a
    variable declared without a type has the one that it was last assigned.  The others exclude a departure
    from the manual,
    and have their exact conditions elsewhere: in `LoweringLimits.dfy` the arms of `?:`, the late load of
    compound assignment and an initialiser that mentions its own name; in `NamesStay.dfy` declarations
    that are left behind in an outer scope; in `Finished.dfy` a `switch` without clauses. */
module Static {
  import opened Options
  import opened Ir
  import opened Source
  import opened Lowering

  predicate Mentions(e: Expr, x: string) {
    match e
    case ELit(_) => false
    case EBool(_) => false
    case EVar(y) => x == y
    case EUn(_, arg) => Mentions(arg, x)
    case EBin(_, left, right) => Mentions(left, x) || Mentions(right, x)
    case ELogic(_, left, right) => Mentions(left, x) || Mentions(right, x)
    case EInc(_, _, y) => x == y
    case ECond(cond, yes, no) => Mentions(cond, x) || Mentions(yes, x) || Mentions(no, x)
  }

  /** `x++` or the like occurs in `e`. */
  predicate Changes(e: Expr, x: string) {
    match e
    case EUn(_, arg) => Changes(arg, x)
    case EBin(_, left, right) => Changes(left, x) || Changes(right, x)
    case ELogic(_, left, right) => Changes(left, x) || Changes(right, x)
    case EInc(_, _, y) => x == y
    case ECond(cond, yes, no) => Changes(cond, x) || Changes(yes, x) || Changes(no, x)
    case _ => false
  }

  /** An arm of `?:` that can run although it is not chosen. */
  predicate SimpleArm(e: Expr) {
    e.ELit? || e.EBool? || e.EVar?
  }

  predicate WfExpr(e: Expr, g: seq<Decl>) {
    match e
    case ELit(n) => n <= INT_MAX
    case EBool(_) => true
    case EVar(x) => Find(g, x).Some?
    case EUn(op, arg) => (op == Neg && arg == ELit(-INT_MIN)) || WfExpr(arg, g)
    case EBin(_, left, right) => WfExpr(left, g) && WfExpr(right, g)
    case ELogic(_, left, right) => WfExpr(left, g) && WfExpr(right, g)
    case EInc(_, _, x) => Find(g, x).Some?
    case ECond(cond, yes, no) =>
      WfExpr(cond, g) && WfExpr(yes, g) && WfExpr(no, g) && SimpleArm(yes) && SimpleArm(no)
  }

  /** A declaration that is the body of a control statement stays in the scope around it; a new name
      hides nothing there. */
  predicate NewName(s: Stmt, g: seq<Decl>) {
    s.SDecl? ==> Find(g, s.decl.name).None?
  }

  predicate NewNames(ss: seq<Stmt>, g: seq<Decl>) {
    forall s :: s in ss ==> NewName(s, g)
  }

  /** `brk` and `lp`: a `break` or a `continue` here has a target. */
  predicate WfStmt(s: Stmt, g: seq<Decl>, brk: bool, lp: bool)
    decreases s, 1
  {
    match s
    case SDecl(d, init) =>
      (match init
       case None => d.ty != TUnknown
       case Some(e) => WfExpr(e, g) && !Mentions(e, d.name))
    case SAssign(x, aop, rhs) =>
      Find(g, x).Some? && WfExpr(rhs, g) &&
      (match aop case None => true case Some(op) => op in {Add, Sub, Mul, Div} && !Changes(rhs, x))
    case SExpr(e) => WfExpr(e, g)
    case SBlock(body) => WfAll(body, g, brk, lp)
    case SIf(cond, yes, no) =>
      WfExpr(cond, g) && NewName(yes, g) && WfStmt(yes, g, brk, lp) &&
      (match no case None => true case Some(other) => NewName(other, g) && WfStmt(other, g, brk, lp))
    case SWhile(cond, loop) => WfExpr(cond, g) && NewName(loop, g) && WfStmt(loop, g, true, true)
    case SDo(loop, cond) => WfExpr(cond, g) && NewName(loop, g) && WfStmt(loop, g, true, true)
    case SFor(start, _, _, _) => WfFor(s, g) && NewName(start, g)
    case SSwitch(e, cases, default) =>
      WfExpr(e, g) && (cases != [] || default.Otherwise?) &&
      (forall c :: c in cases ==> WfExpr(c.value, g) && NewNames(c.body, g) && WfAll(c.body, g, true, lp)) &&
      (match default case NoDefault => true case Otherwise(body) => NewNames(body, g) && WfAll(body, g, true, lp))
    case SBreak => brk
    case SContinue => lp
    case SReturn(result) => (match result case None => true case Some(e) => WfExpr(e, g))
  }

  /** The conditions on the parts of a `for`. */
  predicate WfFor(s: Stmt, g: seq<Decl>)
    requires s.SFor?
    decreases s, 0
  {
    (s.start.SDecl? || s.start.SAssign? || s.start.SExpr?) && WfStmt(s.start, g, false, false) &&
    var h := After(g, s.start);
    WfExpr(s.cond, h) && (s.step.SAssign? || s.step.SExpr?) && WfStmt(s.step, h, false, false) &&
    NewName(s.loop, h) && WfStmt(s.loop, h, true, true)
  }

  predicate WfAll(ss: seq<Stmt>, g: seq<Decl>, brk: bool, lp: bool)
    decreases ss, 0
  {
    ss == [] || (WfStmt(ss[0], g, brk, lp) && WfAll(ss[1..], After(g, ss[0]), brk, lp))
  }

  // ----- types -----

  function TypesOf(g: seq<Decl>): (ts: seq<Ty>)
    ensures |ts| == |g|
  {
    seq(|g|, i requires 0 <= i < |g| => g[i].ty)
  }

  /** Computes a number; the others compare. */
  predicate IsArithmetic(op: BinOp) {
    op in {Add, Sub, Mul, Div, Mod, Shl, Shr}
  }

  /** `ts` has the type that each declaration of `g` has got so far. */
  function TypeOf(e: Expr, g: seq<Decl>, ts: seq<Ty>): Ty
    requires |ts| == |g|
  {
    match e
    case ELit(_) => TInt
    case EBool(_) => TBool
    case EVar(x) => (match Find(g, x) case Some(k) => ts[k] case None => TUnknown)
    case EUn(_, arg) => TypeOf(arg, g, ts)
    case EBin(op, left, _) => if IsArithmetic(op) then TypeOf(left, g, ts) else TBool
    case ELogic(_, _, _) => TBool
    case EInc(_, _, x) => (match Find(g, x) case Some(k) => ts[k] case None => TUnknown)
    case ECond(_, yes, _) => TypeOf(yes, g, ts)
  }

  /** Arithmetic is on operands that are known to be int. */
  predicate TypedExpr(e: Expr, g: seq<Decl>, ts: seq<Ty>)
    requires |ts| == |g|
  {
    match e
    case EUn(_, arg) => TypedExpr(arg, g, ts)
    case EBin(op, left, right) =>
      TypedExpr(left, g, ts) && TypedExpr(right, g, ts) &&
      (IsArithmetic(op) ==> TypeOf(left, g, ts) == TInt && TypeOf(right, g, ts) == TInt)
    case ELogic(_, left, right) => TypedExpr(left, g, ts) && TypedExpr(right, g, ts)
    case ECond(cond, yes, no) => TypedExpr(cond, g, ts) && TypedExpr(yes, g, ts) && TypedExpr(no, g, ts)
    case _ => true
  }

  /** A variable has the type of its declaration, until a plain assignment gives it that of its right-hand
      side: the last one in the order of the text, whatever the order in which they run. */
  function TypesAfter(s: Stmt, g: seq<Decl>, ts: seq<Ty>): (r: seq<Ty>)
    requires |ts| == |g|
    ensures |r| == |After(g, s)|
    decreases s, 1
  {
    match s
    case SDecl(d, _) => ts + [d.ty]
    case SAssign(x, aop, rhs) =>
      (match Find(g, x)
       case Some(k) => if aop.None? then ts[k := TypeOf(rhs, g, ts)] else ts
       case None => ts)
    case SBlock(body) => TypesAll(body, g, ts)[..|g|]
    case SIf(_, yes, no) =>
      var chosen := TypesAfter(yes, g, ts)[..|g|];
      (match no case None => chosen case Some(other) => TypesAfter(other, g, chosen)[..|g|])
    case SWhile(_, loop) => TypesAfter(loop, g, ts)[..|g|]
    case SDo(loop, _) => TypesAfter(loop, g, ts)[..|g|]
    case SFor(_, _, _, _) => TypesAfter(s.step, After(g, s.start), LoopTypes(s, g, ts))[..|g|]
    case SSwitch(_, cases, default) =>
      var tested := TypesCases(s, 0, g, ts);
      (match default case NoDefault => tested case Otherwise(body) => TypesAll(body, g, tested)[..|g|])
    case _ => ts
  }

  /** The types after the start and the body of a `for`. */
  function LoopTypes(s: Stmt, g: seq<Decl>, ts: seq<Ty>): (r: seq<Ty>)
    requires |ts| == |g| && s.SFor?
    ensures |r| == |After(g, s.start)|
    decreases s, 0
  {
    var h := After(g, s.start);
    TypesAfter(s.loop, h, TypesAfter(s.start, g, ts))[..|h|]
  }

  function TypesAll(ss: seq<Stmt>, g: seq<Decl>, ts: seq<Ty>): (r: seq<Ty>)
    requires |ts| == |g|
    ensures |r| == |AfterAll(g, ss)|
    decreases ss, 0
  {
    if ss == [] then ts else TypesAll(ss[1..], After(g, ss[0]), TypesAfter(ss[0], g, ts))
  }

  /** After the clauses from number `i` on. */
  function TypesCases(s: Stmt, i: nat, g: seq<Decl>, ts: seq<Ty>): (r: seq<Ty>)
    requires |ts| == |g| && s.SSwitch? && i <= |s.cases|
    ensures |r| == |g|
    decreases s, 0, |s.cases| - i
  {
    if i == |s.cases| then ts else TypesCases(s, i + 1, g, TypesAll(s.cases[i].body, g, ts)[..|g|])
  }

  predicate TypedStmt(s: Stmt, g: seq<Decl>, ts: seq<Ty>)
    requires |ts| == |g|
    decreases s, 1
  {
    match s
    case SDecl(_, init) => init.Some? ==> TypedExpr(init.value, g, ts)
    case SAssign(x, aop, rhs) =>
      TypedExpr(rhs, g, ts) && (aop.Some? ==> TypeOf(EVar(x), g, ts) == TInt && TypeOf(rhs, g, ts) == TInt)
    case SExpr(e) => TypedExpr(e, g, ts)
    case SBlock(body) => TypedAll(body, g, ts)
    case SIf(cond, yes, no) =>
      TypedExpr(cond, g, ts) && TypedStmt(yes, g, ts) &&
      (match no case None => true case Some(other) => TypedStmt(other, g, TypesAfter(yes, g, ts)[..|g|]))
    case SWhile(cond, loop) => TypedExpr(cond, g, ts) && TypedStmt(loop, g, ts)
    case SDo(loop, cond) => TypedStmt(loop, g, ts) && TypedExpr(cond, g, TypesAfter(loop, g, ts)[..|g|])
    case SFor(start, cond, step, loop) =>
      var h, started := After(g, start), TypesAfter(start, g, ts);
      TypedStmt(start, g, ts) && TypedExpr(cond, h, started) && TypedStmt(loop, h, started) &&
      TypedStmt(step, h, LoopTypes(s, g, ts))
    case SSwitch(e, _, default) =>
      TypedExpr(e, g, ts) && TypedCases(s, 0, g, ts) &&
      (match default case NoDefault => true case Otherwise(body) => TypedAll(body, g, TypesCases(s, 0, g, ts)))
    case SReturn(result) => result.Some? ==> TypedExpr(result.value, g, ts)
    case _ => true
  }

  predicate TypedAll(ss: seq<Stmt>, g: seq<Decl>, ts: seq<Ty>)
    requires |ts| == |g|
    decreases ss, 0
  {
    ss == [] || (TypedStmt(ss[0], g, ts) && TypedAll(ss[1..], After(g, ss[0]), TypesAfter(ss[0], g, ts)))
  }

  predicate TypedCases(s: Stmt, i: nat, g: seq<Decl>, ts: seq<Ty>)
    requires |ts| == |g| && s.SSwitch? && i <= |s.cases|
    decreases s, 0, |s.cases| - i
  {
    i < |s.cases| ==>
      TypedExpr(s.cases[i].value, g, ts) && TypedAll(s.cases[i].body, g, ts) &&
      TypedCases(s, i + 1, g, TypesAll(s.cases[i].body, g, ts)[..|g|])
  }

  predicate WfFunction(fn: FnDef) {
    WfAll(fn.body, fn.params, false, false) && TypedAll(fn.body, fn.params, TypesOf(fn.params))
  }

  // ----- what the conditions give -----

  /** What a list declares at its top level is new. */
  lemma {:induction false} AfterNewNames(g0: seq<Decl>, g: seq<Decl>, ss: seq<Stmt>)
    requires NewNames(ss, g0)
    ensures forall i :: |g| <= i < |AfterAll(g, ss)| ==> Find(g0, AfterAll(g, ss)[i].name).None?
    decreases |ss|
  {
    if ss != [] {
      assert NewName(ss[0], g0);
      var g1 := After(g, ss[0]);
      AfterNewNames(g0, g1, ss[1..]);
      if ss[0].SDecl? { assert AfterAll(g, ss)[|g|] == g1[|g|]; }
    }
  }

  /** An expression without `x++` leaves the variable `x` alone. */
  lemma {:induction false} EvalUnchanged(e: Expr, g: seq<Decl>, env: seq<Value>, x: string)
    requires |env| == |g| && !Changes(e, x) && Find(g, x).Some?
    ensures var r := Eval(e, g, env); r.Val? ==> r.env[Find(g, x).value] == env[Find(g, x).value]
  {
    match e {
      case EUn(op, arg) => EvalUnchanged(arg, g, env, x);
      case EBin(op, left, right) =>
        EvalUnchanged(left, g, env, x);
        var r := Eval(left, g, env);
        if r.Val? { EvalUnchanged(right, g, r.env, x); }
      case ELogic(isAnd, left, right) =>
        EvalUnchanged(left, g, env, x);
        var r := Eval(left, g, env);
        if r.Val? { EvalUnchanged(right, g, r.env, x); }
      case ECond(cond, yes, no) =>
        EvalUnchanged(cond, g, env, x);
        var r := Eval(cond, g, env);
        if r.Val? {
          EvalUnchanged(yes, g, r.env, x);
          EvalUnchanged(no, g, r.env, x);
        }
      case _ =>
    }
  }
}
