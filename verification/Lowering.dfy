/** Lowering of expressions and statements to basic blocks, as a function of the lowering context.
    `LoweringContext.dfy` has the imperative form and ties every method to these functions. */
module Lowering {
  import opened Options
  import opened Ir
  import opened Source

  // ----- the lowering context -----

  datatype Binding = Binding(name: string, ir: Name)
  datatype LoopTarget = LoopTarget(breakLabel: Label, continueLabel: Label)

  /** `scope` flattens the chain of scopes, the newest binding last, so leaving a block restores the
      value it had on entry.  `breaks` and `loops` are stacks with the innermost target last. */
  datatype Ctx = Ctx(
    blocks: seq<Block>, cur: nat,
    tempId: nat, labelId: nat, varId: nat,
    scope: seq<Binding>, types: map<Name, Ty>,
    breaks: seq<Label>, loops: seq<LoopTarget>)

  function Lookup(scope: seq<Binding>, x: string): Option<Name> {
    if scope == [] then None
    else if scope[|scope| - 1].name == x then Some(scope[|scope| - 1].ir)
    else Lookup(scope[..|scope| - 1], x)
  }

  /** The IR name of `x`: what the scopes say, or the name itself. */
  function Resolve(st: Ctx, x: string): Name {
    match Lookup(st.scope, x)
    case Some(n) => n
    case None => Global(x)
  }

  function TypeOfName(st: Ctx, n: Name): Ty {
    if n in st.types then st.types[n] else TUnknown
  }

  /** The frontend's guess of an expression's type, which decides what checks are emitted. */
  function Guess(e: Expr, st: Ctx): Ty {
    match e
    case ELit(_) => TInt
    case EBool(_) => TBool
    case EVar(x) => TypeOfName(st, Resolve(st, x))
    case EUn(_, arg) => Guess(arg, st)
    case EBin(op, left, _) => if IsComparison(op) then TBool else Guess(left, st)
    case ELogic(_, _, _) => TBool
    case EInc(_, _, x) => TypeOfName(st, Resolve(st, x))
    case ECond(_, yes, _) => Guess(yes, st)
  }

  predicate IsComparison(op: BinOp) {
    op in {Eq, Ne, Lt, Le, Gt, Ge}
  }

  // ----- the small steps every construct is made of -----

  function NextTemp(st: Ctx): (r: (Ctx, Name)) {
    (st.(tempId := st.tempId + 1), Temp(st.tempId + 1))
  }

  function NextLabel(st: Ctx, prefix: string): (r: (Ctx, Label)) {
    (st.(labelId := st.labelId + 1), Fresh(prefix, st.labelId + 1))
  }

  function NextVar(st: Ctx, base: string): (r: (Ctx, Name)) {
    (st.(varId := st.varId + 1), Local(base, st.varId + 1))
  }

  function AddBlock(st: Ctx, l: Label): Ctx {
    st.(blocks := st.blocks + [Block(l, [])])
  }

  /** Draws one label per prefix, then adds a block for each. */
  function OpenBlocks(st: Ctx, prefixes: seq<string>): (r: (Ctx, seq<Label>))
    ensures |r.1| == |prefixes|
  {
    if prefixes == [] then (st, [])
    else
      var (s1, labels) := OpenBlocks(st, prefixes[..|prefixes| - 1]);
      var (s2, l) := NextLabel(s1, prefixes[|prefixes| - 1]);
      (AddBlock(s2, l), labels + [l])
  }

  function Emit(st: Ctx, i: Instr): Ctx {
    if st.cur < |st.blocks| then
      st.(blocks := st.blocks[st.cur := st.blocks[st.cur].(instrs := st.blocks[st.cur].instrs + [i])])
    else st
  }

  function At(st: Ctx, block: nat): Ctx {
    st.(cur := block)
  }

  predicate IsTerminator(i: Instr) {
    i.Ret? || i.RetVoid? || i.RetDefault? || i.Jump? || i.BranchIf?
  }

  /** Only the last instruction of the current block is looked at. */
  predicate Terminated(st: Ctx) {
    st.cur < |st.blocks| && |st.blocks[st.cur].instrs| > 0 &&
    IsTerminator(st.blocks[st.cur].instrs[|st.blocks[st.cur].instrs| - 1])
  }

  function JumpUnlessTerminated(st: Ctx, l: Label): Ctx {
    if Terminated(st) then st else Emit(st, Jump(l))
  }

  function Define(st: Ctx, d: Decl, ir: Name): Ctx {
    st.(scope := st.scope + [Binding(d.name, ir)], types := st.types[ir := d.ty])
  }

  function Push(st: Ctx, breakLabel: Label, continueLabel: Label): Ctx {
    st.(breaks := st.breaks + [breakLabel], loops := st.loops + [LoopTarget(breakLabel, continueLabel)])
  }

  function Pop(st: Ctx): Ctx {
    st.(breaks := Front(st.breaks), loops := Front(st.loops))
  }

  function Front<T>(s: seq<T>): seq<T> {
    if s == [] then s else s[..|s| - 1]
  }

  // ----- expressions -----

  /** The check that guards an arithmetic instruction, if the guessed types ask for one. */
  function Checks(op: BinOp, l: Name, r: Name, intLike: bool): seq<Instr> {
    if !intLike then []
    else
      match op
      case Add => [CheckOverflow(op, l, r, 0)]
      case Sub => [CheckOverflow(op, l, r, 0)]
      case Mul => [CheckOverflow(op, l, r, 0)]
      case Div => [CheckDivZero(r, 0)]
      case Mod => [CheckDivZero(r, 0)]
      case Shl => [CheckShift(r, 64, 0)]
      case Shr => [CheckShift(r, 64, 0)]
      case _ => []
  }

  function EmitAll(st: Ctx, code: seq<Instr>): Ctx
    decreases |code|
  {
    if code == [] then st else EmitAll(Emit(st, code[0]), code[1..])
  }

  function EmitBin(st: Ctx, op: BinOp, l: Name, r: Name, intLike: bool): (Ctx, Name) {
    var checked := EmitAll(st, Checks(op, l, r, intLike));
    var (st1, dst) := NextTemp(checked);
    (Emit(st1, Bin(dst, op, l, r)), dst)
  }

  /** What one `&&` or `||` remembers: two labels, the index of its first block, its result. */
  datatype Logic = Logic(done: Label, cont: Label, base: nat, dst: Name)

  /** Everything before the right operand: the branch, the short block, then the right block. */
  function OpenLogic(isAnd: bool, l: Name, st: Ctx): (Ctx, Logic) {
    var (s1, labels) := OpenBlocks(st, ["logic_right_", "logic_short_", "logic_done_"]);
    var (s2, cont) := NextLabel(s1, "logic_cont_");
    var (s3, dst) := NextTemp(s2);
    var right, short, done := labels[0], labels[1], labels[2];
    var s4 := Emit(s3, BranchIf(l, if isAnd then right else short, if isAnd then short else right));
    var s5 := Emit(Emit(At(s4, |st.blocks| + 1), Const(dst, RawBool(!isAnd))), Jump(done));
    (At(s5, |st.blocks|), Logic(done, cont, |st.blocks|, dst))
  }

  function CloseLogic(r: Name, k: Logic, st: Ctx): Ctx {
    var s1 := AddBlock(Emit(Emit(st, Copy(k.dst, r)), Jump(k.done)), k.cont);
    var s2 := Emit(Emit(At(s1, k.base + 2), Nop), Jump(k.cont));
    At(s2, |s1.blocks| - 1)
  }

  function LowerExpr(e: Expr, st: Ctx): (Ctx, Name) {
    match e
    case ELit(n) =>
      var (s1, dst) := NextTemp(st);
      (Emit(s1, Const(dst, IntText(n))), dst)
    case EBool(b) =>
      var (s1, dst) := NextTemp(st);
      (Emit(s1, Const(dst, RawBool(b))), dst)
    case EVar(x) =>
      var (s1, dst) := NextTemp(st);
      (Emit(s1, LoadVar(dst, Resolve(st, x))), dst)
    case EUn(op, arg) =>
      if op == Neg && arg == ELit(-INT_MIN) then
        var (s1, dst) := NextTemp(st);
        (Emit(s1, Const(dst, IntText(INT_MIN))), dst)
      else
        var (s1, v) := LowerExpr(arg, st);
        var (s2, dst) := NextTemp(s1);
        (Emit(s2, Unary(dst, op, v)), dst)
    case EBin(op, left, right) =>
      var (s1, l) := LowerExpr(left, st);
      var (s2, r) := LowerExpr(right, s1);
      EmitBin(s2, op, l, r, Guess(left, s2) == TInt && Guess(right, s2) == TInt)
    case ELogic(isAnd, left, right) =>
      var (s1, l) := LowerExpr(left, st);
      var (s2, k) := OpenLogic(isAnd, l, s1);
      var (s3, r) := LowerExpr(right, s2);
      (CloseLogic(r, k, s3), k.dst)
    case EInc(up, prefix, x) =>
      // no overflow check guards this addition
      var name := Resolve(st, x);
      var (s1, cur) := NextTemp(st);
      var (s2, one) := NextTemp(s1);
      var (s3, next) := NextTemp(s2);
      var s4 := Emit(Emit(s3, LoadVar(cur, name)), Const(one, IntText(1)));
      (Emit(Emit(s4, Bin(next, if up then Add else Sub, cur, one)), StoreVar(name, next)), if prefix then next else cur)
    case ECond(cond, yes, no) =>
      // both arms run
      var (s1, c) := LowerExpr(cond, st);
      var (s2, a) := LowerExpr(yes, s1);
      var (s3, b) := LowerExpr(no, s2);
      var (s4, dst) := NextTemp(s3);
      (Emit(s4, Select(dst, c, a, b)), dst)
  }

  // ----- statements -----

  function LowerDecl(d: Decl, init: Option<Expr>, st: Ctx): Ctx {
    // the name is in scope before its initialiser is lowered
    var (s1, ir) := NextVar(st, d.name);
    var s2 := Emit(Define(s1, d, ir), VarDecl(ir));
    var (s3, v) :=
      match init
      case Some(e) => LowerExpr(e, s2)
      case None =>
        var (t, dst) := NextTemp(s2);
        (Emit(t, Const(dst, if d.ty == TBool then RawBool(false) else IntText(0))), dst);
    Emit(s3, StoreVar(Resolve(s3, d.name), v))
  }

  function LowerAssign(x: string, aop: Option<BinOp>, rhs: Expr, st: Ctx): Ctx {
    var (s1, v) := LowerExpr(rhs, st);
    match aop
    case None =>
      var s2 := s1.(types := s1.types[Resolve(s1, x) := Guess(rhs, s1)]);
      Emit(s2, StoreVar(Resolve(s2, x), v))
    case Some(op) =>
      // the right-hand side runs before the variable is read
      var (s2, cur) := LowerExpr(EVar(x), s1);
      var (s3, next) := EmitBin(s2, op, cur, v, Guess(EVar(x), s1) == TInt && Guess(rhs, s1) == TInt);
      Emit(s3, StoreVar(Resolve(s3, x), next))
  }

  function LowerStmt(s: Stmt, st: Ctx): Ctx
    decreases s, 0
  {
    match s
    case SDecl(d, init) => LowerDecl(d, init, st)
    case SAssign(x, aop, rhs) => LowerAssign(x, aop, rhs, st)
    case SExpr(e) => LowerExpr(e, st).0
    case SBlock(body) => LowerAll(body, st).(scope := st.scope)
    case SIf(cond, yes, no) =>
      var (s1, c) := LowerExpr(cond, st);
      var n := |s1.blocks|;
      var (s2, labels) := OpenBlocks(s1, ["if_then_", "if_done_"] + if no.Some? then ["if_else_"] else []);
      var s3 := Emit(s2, BranchIf(c, labels[0], if no.Some? then labels[2] else labels[1]));
      var s4 := JumpUnlessTerminated(LowerStmt(yes, At(s3, n)), labels[1]);
      var s5 :=
        match no
        case Some(other) => JumpUnlessTerminated(LowerStmt(other, At(s4, n + 2)), labels[1])
        case None => s4;
      Emit(At(s5, n + 1), Nop)
    case SWhile(cond, loop) =>
      var n := |st.blocks|;
      var (s1, labels) := OpenBlocks(st, ["while_cond_", "while_body_", "while_done_"]);
      var (s2, c) := LowerExpr(cond, At(Emit(s1, Jump(labels[0])), n));
      var s3 := At(Emit(s2, BranchIf(c, labels[1], labels[2])), n + 1);
      Emit(At(LowerBody(loop, labels[2], labels[0], s3), n + 2), Nop)
    case SDo(loop, cond) =>
      var n := |st.blocks|;
      var (s1, labels) := OpenBlocks(st, ["do_body_", "do_cond_", "do_done_"]);
      var s2 := LowerBody(loop, labels[2], labels[1], At(Emit(s1, Jump(labels[0])), n));
      var (s3, c) := LowerExpr(cond, At(s2, n + 1));
      Emit(At(Emit(s3, BranchIf(c, labels[0], labels[2])), n + 2), Nop)
    case SFor(start, cond, step, loop) =>
      var n := |st.blocks|;
      var (s1, labels) := OpenBlocks(st, ["for_init_", "for_cond_", "for_body_", "for_step_", "for_done_"]);
      // the loop variable goes into the scope around the loop
      var s2 := Emit(LowerStmt(start, At(Emit(s1, Jump(labels[0])), n)), Jump(labels[1]));
      var (s3, c) := LowerExpr(cond, At(s2, n + 1));
      var s4 := At(Emit(s3, BranchIf(c, labels[2], labels[4])), n + 2);
      var s5 := LowerBody(loop, labels[4], labels[3], s4);
      var s6 := Emit(LowerStmt(step, At(s5, n + 3)), Jump(labels[1]));
      Emit(At(s6, n + 4), Nop)
    case SSwitch(e, cases, default) =>
      var (s1, v) := LowerExpr(e, st);
      var (s2, doneL) := NextLabel(s1, "sw_done_");
      var n := |s2.blocks|;
      var (s3, labels) := OpenBlocks(s2.(breaks := s2.breaks + [doneL]),
                                     CasePrefixes(|cases|) + if default.Otherwise? then ["sw_default_"] else []);
      var defaultL := if default.Otherwise? then labels[2 * |cases|] else doneL;
      var s4 := if |labels| > 0 then Emit(s3, Jump(labels[0])) else s3;
      var s5 := LowerCases(v, s, 0, n, labels, defaultL, doneL, s4);
      var s6 :=
        match default
        case Otherwise(body) => JumpUnlessTerminated(LowerAll(body, At(s5, n + 2 * |cases|)), doneL)
        case NoDefault => s5;
      CloseSwitch(doneL, s6)
    case SBreak =>
      if st.breaks == [] then Emit(st, Unhandled) else Emit(st, Jump(st.breaks[|st.breaks| - 1]))
    case SContinue =>
      if st.loops == [] then Emit(st, Unhandled) else Emit(st, Jump(st.loops[|st.loops| - 1].continueLabel))
    case SReturn(result) =>
      (match result
       case None => Emit(st, RetVoid)
       case Some(e) =>
         var (s1, v) := LowerExpr(e, st);
         Emit(s1, Ret(v)))
  }

  function LowerAll(ss: seq<Stmt>, st: Ctx): Ctx
    decreases ss, 0
  {
    if ss == [] then st else LowerAll(ss[1..], LowerStmt(ss[0], st))
  }

  /** A loop body between pushing and popping its targets. */
  function LowerBody(loop: Stmt, doneL: Label, continueL: Label, st: Ctx): Ctx
    decreases loop, 1
  {
    Pop(JumpUnlessTerminated(LowerStmt(loop, Push(st, doneL, continueL)), continueL))
  }

  /** The block after a `switch` is added last, under a label drawn first. */
  function CloseSwitch(doneL: Label, st: Ctx): Ctx {
    Emit(At(AddBlock(st, doneL), |st.blocks|), Nop).(breaks := Front(st.breaks))
  }

  /** Every case has a compare block and then a body block. */
  function CasePrefixes(count: nat): (r: seq<string>)
    ensures |r| == 2 * count
  {
    if count == 0 then [] else CasePrefixes(count - 1) + ["sw_cmp_", "sw_body_"]
  }

  /** Fills the blocks of the cases from number `i` on; case 0 starts at block `n`. */
  function LowerCases(v: Name, s: Stmt, i: nat, n: nat, labels: seq<Label>, defaultL: Label, doneL: Label, st: Ctx): Ctx
    requires s.SSwitch? && i <= |s.cases| && 2 * |s.cases| <= |labels|
    decreases s, 0, |s.cases| - i
  {
    if i == |s.cases| then st
    else
      var (s1, w) := LowerExpr(s.cases[i].value, At(st, n + 2 * i));
      var (s2, eq) := NextTemp(s1);
      var otherwise := if i + 1 < |s.cases| then labels[2 * i + 2] else defaultL;
      var s3 := Emit(Emit(s2, Bin(eq, Eq, v, w)), BranchIf(eq, labels[2 * i + 1], otherwise));
      var s4 := JumpUnlessTerminated(LowerAll(s.cases[i].body, At(s3, n + 2 * i + 1)), doneL);
      LowerCases(v, s, i + 1, n, labels, defaultL, doneL, s4)
  }

  // ----- whole functions -----

  function DefineParams(params: seq<Decl>, st: Ctx): (r: (Ctx, seq<Name>))
    ensures |r.1| == |params|
  {
    if params == [] then (st, [])
    else
      var (s1, names) := DefineParams(params[..|params| - 1], st);
      var d := params[|params| - 1];
      var (s2, ir) := NextVar(s1, d.name);
      (Define(s2, d, ir), names + [ir])
  }

  const START := Ctx([Block(Entry, [])], 0, 0, 0, 0, [], map[], [], [])

  function LowerFunction(fn: FnDef): Function {
    var (s1, params) := DefineParams(fn.params, START);
    var s2 := LowerStmt(SBlock(fn.body), s1);
    var s3 := if Terminated(s2) then s2 else Emit(s2, if fn.isVoid then RetVoid else RetDefault);
    Function(params, s3.blocks)
  }
}
