/** The int/bool fragment of the source language, with the meaning the reference manual gives it:
    lexical scopes, left-to-right evaluation, short-circuit logic, checked arithmetic. */
module Source {
  import opened Options
  import opened Arith
  import opened Ir

  // ----- syntax -----

  datatype Ty = TInt | TBool | TUnknown
  datatype Decl = Decl(name: string, ty: Ty)

  datatype Expr =
    | ELit(n: nat)
    | EBool(b: bool)
    | EVar(x: string)
    | EUn(unop: UnOp, arg: Expr)
    | EBin(op: BinOp, left: Expr, right: Expr)
    | ELogic(isAnd: bool, left: Expr, right: Expr)
    | EInc(up: bool, prefix: bool, x: string)
    | ECond(cond: Expr, yes: Expr, no: Expr)

  datatype Stmt =
    | SDecl(decl: Decl, init: Option<Expr>)
    | SAssign(x: string, aop: Option<BinOp>, rhs: Expr)
    | SExpr(e: Expr)
    | SBlock(body: seq<Stmt>)
    | SIf(cond: Expr, yes: Stmt, no: Option<Stmt>)
    | SWhile(cond: Expr, loop: Stmt)
    | SDo(loop: Stmt, cond: Expr)
    | SFor(start: Stmt, cond: Expr, step: Stmt, loop: Stmt)
    | SSwitch(e: Expr, cases: seq<Case>, default: DefaultClause)
    | SBreak
    | SContinue
    | SReturn(result: Option<Expr>)

  datatype Case = Case(value: Expr, body: seq<Stmt>)
  datatype DefaultClause = NoDefault | Otherwise(body: seq<Stmt>)

  datatype FnDef = FnDef(params: seq<Decl>, isVoid: bool, body: seq<Stmt>)

  // ----- scopes: a list of declarations, the newest last -----

  function Find(g: seq<Decl>, x: string): (k: Option<nat>)
    ensures k.Some? ==> k.value < |g| && g[k.value].name == x
    ensures k.Some? ==> forall j :: k.value < j < |g| ==> g[j].name != x
    ensures k.None? ==> forall j :: 0 <= j < |g| ==> g[j].name != x
  {
    if g == [] then None
    else if g[|g| - 1].name == x then Some(|g| - 1)
    else Find(g[..|g| - 1], x)
  }

  function After(g: seq<Decl>, s: Stmt): seq<Decl> {
    if s.SDecl? then g + [s.decl] else g
  }

  function AfterAll(g: seq<Decl>, ss: seq<Stmt>): (r: seq<Decl>)
    ensures |g| <= |r| && r[..|g|] == g
    decreases |ss|
  {
    if ss == [] then g else AfterAll(After(g, ss[0]), ss[1..])
  }

  // ----- arithmetic as the manual states it -----

  function Exact(n: int): Computed {
    if InInt64(n) then Good(VInt(n)) else Bad(Overflow)
  }

  /** Only `INT_MIN / -1` (and `%`), and a left shift that loses bits or a sign, stay undefined. */
  function Calculate(op: BinOp, a: int, b: int): Computed {
    match op
    case Add => Exact(a + b)
    case Sub => Exact(a - b)
    case Mul => Exact(a * b)
    case Div => if b == 0 then Bad(DivZero) else Fit(TruncDiv(a, b))
    case Mod =>
      if b == 0 then Bad(DivZero)
      else if InInt64(TruncDiv(a, b)) then Good(VInt(TruncMod(a, b))) else Bad(Undefined)
    case Shl => if 0 <= b < 64 then (if a < 0 then Bad(Undefined) else Fit(a * Pow2(b))) else Bad(ShiftRange)
    case Shr => if 0 <= b < 64 then Good(VInt(a / Pow2(b))) else Bad(ShiftRange)
    case Eq => Good(VBool(a == b))
    case Ne => Good(VBool(a != b))
    case Lt => Good(VBool(a < b))
    case Le => Good(VBool(a <= b))
    case Gt => Good(VBool(a > b))
    case Ge => Good(VBool(a >= b))
  }

  function Operate(op: BinOp, l: Value, r: Value): Computed {
    match (l, r)
    case (VInt(a), VInt(b)) => Calculate(op, a, b)
    // a zero divisor or a bad shift count is reported before the operand types are looked at
    case (VBool(_), VInt(b)) =>
      if (op.Div? || op.Mod?) && b == 0 then Bad(DivZero)
      else if (op.Shl? || op.Shr?) && !(0 <= b < 64) then Bad(ShiftRange)
      else Bad(TypeError)
    case (VBool(a), VBool(b)) =>
      if op.Eq? then Good(VBool(a == b)) else if op.Ne? then Good(VBool(a != b)) else Bad(TypeError)
    case (VInt(_), VBool(_)) => Bad(TypeError)
  }

  // ----- expressions -----

  datatype Evaluated = Val(v: Value, env: seq<Value>) | Fault(t: Trap)

  function Eval(e: Expr, g: seq<Decl>, env: seq<Value>): (r: Evaluated)
    requires |env| == |g|
    ensures r.Val? ==> |r.env| == |g|
  {
    match e
    case ELit(n) => Val(VInt(n), env)
    case EBool(b) => Val(VBool(b), env)
    case EVar(x) =>
      (match Find(g, x)
       case Some(k) => Val(env[k], env)
       case None => Fault(Undefined))
    case EUn(op, arg) =>
      (match Eval(arg, g, env)
       case Val(v, env1) =>
         (match RawUn(op, v) case Good(w) => Val(w, env1) case Bad(t) => Fault(t))
       case Fault(t) => Fault(t))
    case EBin(op, left, right) =>
      (match Eval(left, g, env)
       case Val(a, env1) =>
         (match Eval(right, g, env1)
          case Val(b, env2) =>
            (match Operate(op, a, b) case Good(w) => Val(w, env2) case Bad(t) => Fault(t))
          case Fault(t) => Fault(t))
       case Fault(t) => Fault(t))
    case ELogic(isAnd, left, right) =>
      var x := Eval(left, g, env);
      if x.Fault? then x
      else if x.v.VInt? then Fault(TypeError)
      else if x.v.b == isAnd then Eval(right, g, x.env) else x
    case EInc(up, prefix, x) =>
      (match Find(g, x)
       case None => Fault(Undefined)
       case Some(k) =>
         if env[k].VBool? then Fault(TypeError)
         else
           var next := if up then env[k].n + 1 else env[k].n - 1;
           if InInt64(next) then Val(if prefix then VInt(next) else env[k], env[k := VInt(next)])
           else Fault(Undefined))
    case ECond(cond, yes, no) =>
      (match Eval(cond, g, env)
       case Val(VBool(c), env1) => if c then Eval(yes, g, env1) else Eval(no, g, env1)
       case Val(VInt(_), _) => Fault(TypeError)
       case Fault(t) => Fault(t))
  }

  // ----- statements -----

  datatype Signal = Normal | Break | Continue | Return(result: Option<Value>)
  datatype Executed = Done(sig: Signal, env: seq<Value>) | Faulted(t: Trap) | NoFuel

  function Default(ty: Ty): Value {
    if ty == TBool then VBool(false) else VInt(0)
  }

  function Cut(x: Executed, n: nat): (r: Executed)
    requires x.Done? ==> n <= |x.env|
    ensures r.Done? <==> x.Done?
    ensures r.Done? ==> |r.env| == n && r.sig == x.sig && r.env == x.env[..n]
  {
    match x
    case Done(sig, env) => Done(sig, env[..n])
    case _ => x
  }

  /** One fuel unit pays for one loop iteration. */
  function Exec(s: Stmt, g: seq<Decl>, env: seq<Value>, fuel: nat): (r: Executed)
    requires |env| == |g|
    ensures r.Done? ==> |r.env| == if r.sig.Normal? then |After(g, s)| else |g|
    decreases fuel, s, 2
  {
    match s
    case SDecl(d, init) =>
      (match init
       case None => Done(Normal, env + [Default(d.ty)])
       case Some(e) =>
         (match Eval(e, g, env)
          case Val(v, env1) => Done(Normal, env1 + [v])
          case Fault(t) => Faulted(t)))
    case SAssign(x, aop, rhs) =>
      (match Find(g, x)
       case None => Faulted(Undefined)
       case Some(k) =>
         // `x op= e` means `x = x op e`, evaluated from left to right
         var before := env[k];
         match Eval(rhs, g, env)
         case Fault(t) => Faulted(t)
         case Val(v, env1) =>
           match aop
           case None => Done(Normal, env1[k := v])
           case Some(op) =>
             match Operate(op, before, v)
             case Good(w) => Done(Normal, env1[k := w])
             case Bad(t) => Faulted(t))
    case SExpr(e) =>
      (match Eval(e, g, env)
       case Val(_, env1) => Done(Normal, env1)
       case Fault(t) => Faulted(t))
    case SBlock(body) => Cut(ExecAll(body, g, env, fuel), |g|)
    case SIf(cond, yes, no) =>
      (match Eval(cond, g, env)
       case Val(VBool(c), env1) =>
         if c then Cut(Exec(yes, g, env1, fuel), |g|)
         else (match no case Some(n) => Cut(Exec(n, g, env1, fuel), |g|) case None => Done(Normal, env1))
       case Val(VInt(_), _) => Faulted(TypeError)
       case Fault(t) => Faulted(t))
    case SWhile(_, _) => Loop(false, s, g, env, fuel)
    case SDo(_, _) => Loop(true, s, g, env, fuel)
    case SFor(start, _, _, _) =>
      (match Exec(start, g, env, fuel)
       case Done(Normal, env1) => Cut(Loop(false, s, After(g, start), env1, fuel), |g|)
       case r => r)
    case SSwitch(e, cases, default) =>
      (match Eval(e, g, env)
       case Val(v, env1) => LeaveSwitch(ExecCases(v, s, 0, g, env1, fuel), |g|)
       case Fault(t) => Faulted(t))
    case SBreak => Done(Break, env)
    case SContinue => Done(Continue, env)
    case SReturn(result) =>
      (match result
       case None => Done(Return(None), env)
       case Some(e) =>
         (match Eval(e, g, env)
          case Val(v, env1) => Done(Return(Some(v)), env1)
          case Fault(t) => Faulted(t)))
  }

  function ExecAll(ss: seq<Stmt>, g: seq<Decl>, env: seq<Value>, fuel: nat): (r: Executed)
    requires |env| == |g|
    ensures r.Done? ==> |g| <= |r.env|
    ensures r.Done? && r.sig.Normal? ==> |r.env| == |AfterAll(g, ss)|
    decreases fuel, ss, 0
  {
    if ss == [] then Done(Normal, env)
    else
      match Exec(ss[0], g, env, fuel)
      case Done(Normal, env1) => ExecAll(ss[1..], After(g, ss[0]), env1, fuel)
      case r => r
  }

  predicate IsLoop(s: Stmt) {
    s.SWhile? || s.SDo? || s.SFor?
  }

  /** Every loop form: test (unless `first`), body, step, again.  Entering the body costs one fuel
      unit, except that the first round of a `do` is free. */
  function Loop(first: bool, s: Stmt, g: seq<Decl>, env: seq<Value>, fuel: nat): (r: Executed)
    requires IsLoop(s) && |env| == |g|
    ensures r.Done? ==> |r.env| == |g|
    decreases fuel, s, 1, first
  {
    if first then LoopRound(s, g, env, fuel)
    else
      match Eval(s.cond, g, env)
      case Fault(t) => Faulted(t)
      case Val(VInt(_), _) => Faulted(TypeError)
      case Val(VBool(c), env1) =>
        if !c then Done(Normal, env1)
        else if fuel == 0 then NoFuel
        else LoopRound(s, g, env1, fuel - 1)
  }

  function LoopRound(s: Stmt, g: seq<Decl>, env: seq<Value>, fuel: nat): (r: Executed)
    requires IsLoop(s) && |env| == |g|
    ensures r.Done? ==> |r.env| == |g|
    decreases fuel, s, 1, true, 0
  {
    match Cut(Exec(s.loop, g, env, fuel), |g|)
    case Done(Break, env1) => Done(Normal, env1)
    case Done(Return(v), env1) => Done(Return(v), env1)
    case Done(_, env1) =>
      (match if s.SFor? then Cut(Exec(s.step, g, env1, fuel), |g|) else Done(Normal, env1)
       case Done(Normal, env2) => Loop(false, s, g, env2, fuel)
       case r => r)
    case r => r
  }

  /** Case values are tested in order, from number `i` on; there is no fall-through. */
  function ExecCases(v: Value, s: Stmt, i: nat, g: seq<Decl>, env: seq<Value>, fuel: nat): (r: Executed)
    requires s.SSwitch? && i <= |s.cases| && |env| == |g|
    ensures r.Done? ==> |g| <= |r.env|
    decreases fuel, s, 0, |s.cases| - i
  {
    if i == |s.cases| then
      match s.default
      case Otherwise(body) => ExecAll(body, g, env, fuel)
      case NoDefault => Done(Normal, env)
    else
      match Eval(s.cases[i].value, g, env)
      case Fault(t) => Faulted(t)
      case Val(w, env1) =>
        match Operate(Eq, v, w)
        case Bad(t) => Faulted(t)
        case Good(same) =>
          if same == VBool(true) then ExecAll(s.cases[i].body, g, env1, fuel)
          else ExecCases(v, s, i + 1, g, env1, fuel)
  }

  function LeaveSwitch(x: Executed, n: nat): (r: Executed)
    requires x.Done? ==> n <= |x.env|
    ensures r.Done? ==> |r.env| == n
  {
    match Cut(x, n)
    case Done(Break, env) => Done(Normal, env)
    case r => r
  }

  /** A call of the function on `args`. */
  function RunSource(fn: FnDef, args: seq<Value>, fuel: nat): Outcome
    requires |args| == |fn.params|
  {
    match Exec(SBlock(fn.body), fn.params, args, fuel)
    case Done(Return(Some(v)), _) => Returned(v)
    case Done(Return(None), _) => ReturnedVoid
    case Done(Normal, _) => if fn.isVoid then ReturnedVoid else FellOff
    case Done(_, _) => BadGraph
    case Faulted(t) => Trapped(t)
    case NoFuel => OutOfFuel
  }
}
