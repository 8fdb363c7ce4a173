/** What the code emitted for an expression computes: like the evaluation of the manual, except that
    both arms of `?:` run, that arithmetic is checked only where the frontend has guessed `int`, and that a
    declared variable may not have a value yet. */
module LoweredEval {
  import opened Options
  import opened Ir
  import opened Source
  import opened Lowering
  import opened Static

  /** What the guessed types depend on; lowering an expression changes neither. */
  datatype Kinds = Kinds(scope: seq<Binding>, types: map<Name, Ty>)

  function GuessBy(e: Expr, ks: Kinds): Ty {
    Guess(e, START.(scope := ks.scope, types := ks.types))
  }

  lemma {:induction false} GuessKinds(e: Expr, st: Ctx)
    ensures Guess(e, st) == GuessBy(e, Kinds(st.scope, st.types))
  {
    match e {
      case EUn(_, arg) => GuessKinds(arg, st);
      case EBin(_, left, _) => GuessKinds(left, st);
      case ECond(_, yes, _) => GuessKinds(yes, st);
      case _ =>
    }
  }

  predicate IntLike(left: Expr, right: Expr, ks: Kinds) {
    GuessBy(left, ks) == TInt && GuessBy(right, ks) == TInt
  }

  /** The operator with its checks, or without. */
  function Compute(op: BinOp, checked: bool, l: Value, r: Value): Computed {
    if checked then Operate(op, l, r) else RawBin(op, l, r)
  }

  /** `None` for a variable that has no value yet. */
  function Read(x: string, g: seq<Decl>, env: seq<Value>): Option<Value> {
    match Find(g, x)
    case Some(k) => if k < |env| then Some(env[k]) else None
    case None => None
  }

  function EvalLowered(e: Expr, ks: Kinds, g: seq<Decl>, env: seq<Value>): (r: Evaluated)
    ensures r.Val? ==> |r.env| == |env|
  {
    match e
    case ELit(n) => Val(VInt(n), env)
    case EBool(b) => Val(VBool(b), env)
    case EVar(x) => (match Read(x, g, env) case Some(v) => Val(v, env) case None => Fault(Undefined))
    case EUn(op, arg) =>
      (match EvalLowered(arg, ks, g, env)
       case Val(v, env1) => (match RawUn(op, v) case Good(w) => Val(w, env1) case Bad(t) => Fault(t))
       case Fault(t) => Fault(t))
    case EBin(op, left, right) =>
      (match EvalLowered(left, ks, g, env)
       case Val(a, env1) =>
         (match EvalLowered(right, ks, g, env1)
          case Val(b, env2) =>
            (match Compute(op, IntLike(left, right, ks), a, b) case Good(w) => Val(w, env2) case Bad(t) => Fault(t))
          case Fault(t) => Fault(t))
       case Fault(t) => Fault(t))
    case ELogic(isAnd, left, right) =>
      var x := EvalLowered(left, ks, g, env);
      if x.Fault? then x
      else if x.v.VInt? then Fault(TypeError)
      else if x.v.b == isAnd then EvalLowered(right, ks, g, x.env) else x
    case EInc(up, prefix, x) =>
      (match Read(x, g, env)
       case None => Fault(Undefined)
       case Some(v) =>
         match RawBin(if up then Add else Sub, v, VInt(1))
         case Good(w) => Val(if prefix then w else v, env[Find(g, x).value := w])
         case Bad(t) => Fault(t))
    case ECond(cond, yes, no) =>
      var c := EvalLowered(cond, ks, g, env);
      if c.Fault? then c
      else
        var y := EvalLowered(yes, ks, g, c.env);
        if y.Fault? then y
        else
          var n := EvalLowered(no, ks, g, y.env);
          if n.Fault? then n
          else if c.v.VInt? then Fault(TypeError)
          else Val(if c.v.b then y.v else n.v, n.env)
  }

  /** Literals in range and declared names: all that lowering an expression asks. */
  predicate Legal(e: Expr, g: seq<Decl>) {
    match e
    case ELit(n) => n <= INT_MAX
    case EBool(_) => true
    case EVar(x) => Find(g, x).Some?
    case EUn(op, arg) => (op == Neg && arg == ELit(-INT_MIN)) || Legal(arg, g)
    case EBin(_, left, right) => Legal(left, g) && Legal(right, g)
    case ELogic(_, left, right) => Legal(left, g) && Legal(right, g)
    case EInc(_, _, x) => Find(g, x).Some?
    case ECond(cond, yes, no) => Legal(cond, g) && Legal(yes, g) && Legal(no, g)
  }

  lemma {:induction false} WfIsLegal(e: Expr, g: seq<Decl>)
    requires WfExpr(e, g)
    ensures Legal(e, g)
  {
    match e {
      case EUn(op, arg) => if !(op == Neg && arg == ELit(-INT_MIN)) { WfIsLegal(arg, g); }
      case EBin(_, left, right) => WfIsLegal(left, g); WfIsLegal(right, g);
      case ELogic(_, left, right) => WfIsLegal(left, g); WfIsLegal(right, g);
      case ECond(cond, yes, no) => WfIsLegal(cond, g); WfIsLegal(yes, g); WfIsLegal(no, g);
      case _ =>
    }
  }
}
