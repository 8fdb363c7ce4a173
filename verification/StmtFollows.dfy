/** What it means for a run to follow a statement, and why it does for the simple statements. */
module StmtFollows {
  import opened Options
  import opened Ir
  import opened Source
  import opened Lowering
  import opened WorkingGraph
  import opened Static
  import opened Names
  import opened StmtShape
  import opened LoweredEval
  import opened ExprMeaning

  // ----- what it means to follow a statement -----

  datatype Spot = Spot(block: nat, pc: nat)

  ghost function SpotAt(d: Spot, regs: Regs): Config {
    Config(d.block, d.pc, regs)
  }

  ghost function End(st: Ctx): Spot {
    Spot(st.cur, if st.cur < |st.blocks| then |st.blocks[st.cur].instrs| else 0)
  }

  /** The blocks that `break` and `continue` go to. */
  datatype Exits = Exits(brk: nat, cont: nat)

  ghost predicate Targets(st: Ctx, f: Function, brk: bool, lp: bool, x: Exits) {
    (brk ==> st.breaks != [] && IsBlock(f, x.brk, st.breaks[|st.breaks| - 1])) &&
    (lp ==> st.loops != [] && IsBlock(f, x.cont, st.loops[|st.loops| - 1].continueLabel))
  }

  /** The run from `c` does what `x` says: it reaches `d`, or an exit, or stops. */
  ghost predicate FollowsStmt(m: Module, f: Function, x: Executed, slots: seq<Name>, more: seq<Name>, exits: Exits,
                              c: Config, d: Spot, k: nat, regs1: Regs, fuel: nat) {
    match x
    case Done(sig, env) =>
      (match sig
       case Normal => Leads(m, f, c, k, SpotAt(d, regs1)) && Holds(env, more, regs1)
       case Break => Leads(m, f, c, k, Config(exits.brk, 0, regs1)) && Holds(env, slots, regs1)
       case Continue => Leads(m, f, c, k, Config(exits.cont, 0, regs1)) && Holds(env, slots, regs1)
       case Return(result) => Ends(m, f, c, k, if result.Some? then Returned(result.value) else ReturnedVoid))
    case Faulted(t) => Ends(m, f, c, k, Trapped(t))
    case NoFuel => Run(m, f, c, fuel) == OutOfFuel
  }

  lemma OutEarlier(m: Module, f: Function, c: Config, less: nat, fuel: nat)
    requires less <= fuel && Run(m, f, c, fuel) == OutOfFuel
    ensures Run(m, f, c, less) == OutOfFuel
  {
    hide Run;
    if Run(m, f, c, less) != OutOfFuel { RunMonotone(m, f, c, less, fuel); }
  }

  lemma FollowsBefore(m: Module, f: Function, x: Executed, slots: seq<Name>, more: seq<Name>, exits: Exits,
                      a: Config, k0: nat, c: Config, d: Spot, k: nat, regs1: Regs, fuel: nat, fuel0: nat)
    requires Leads(m, f, a, k0, c) && FollowsStmt(m, f, x, slots, more, exits, c, d, k, regs1, fuel) &&
             fuel0 <= k0 + fuel
    ensures FollowsStmt(m, f, x, slots, more, exits, a, d, k0 + k, regs1, fuel0)
  {
    hide Run;
    match x
    case Done(Normal, _) => LeadsTrans(m, f, a, k0, c, k, SpotAt(d, regs1));
    case Done(Break, _) => LeadsTrans(m, f, a, k0, c, k, Config(exits.brk, 0, regs1));
    case Done(Continue, _) => LeadsTrans(m, f, a, k0, c, k, Config(exits.cont, 0, regs1));
    case Done(Return(result), _) =>
      LeadsEnds(m, f, a, k0, c, k, if result.Some? then Returned(result.value) else ReturnedVoid);
    case Faulted(t) => LeadsEnds(m, f, a, k0, c, k, Trapped(t));
    case NoFuel => OutEarlier(m, f, a, fuel0, k0 + fuel);
  }

  /** After a normal end the run goes on to `e`; after any other end `e` does not matter. */
  lemma FollowsOnward(m: Module, f: Function, x: Executed, slots: seq<Name>, more: seq<Name>, exits: Exits,
                      c: Config, d: Spot, k: nat, regs1: Regs, fuel: nat, k1: nat, e: Spot) returns (k2: nat)
    requires FollowsStmt(m, f, x, slots, more, exits, c, d, k, regs1, fuel)
    requires EndsNormally(x) ==> Leads(m, f, SpotAt(d, regs1), k1, SpotAt(e, regs1))
    ensures FollowsStmt(m, f, x, slots, more, exits, c, e, k2, regs1, fuel)
  {
    hide Run;
    k2 := k;
    if x.Done? && x.sig.Normal? {
      LeadsTrans(m, f, c, k, SpotAt(d, regs1), k1, SpotAt(e, regs1));
      k2 := k + k1;
    }
  }

  lemma FollowsCut(m: Module, f: Function, x: Executed, n: nat, slots: seq<Name>, more: seq<Name>, exits: Exits,
                   c: Config, d: Spot, k: nat, regs1: Regs, fuel: nat)
    requires FollowsStmt(m, f, x, slots, more, exits, c, d, k, regs1, fuel) && slots <= more && n == |slots|
    requires x.Done? ==> n <= |x.env|
    ensures FollowsStmt(m, f, Cut(x, n), slots, slots, exits, c, d, k, regs1, fuel)
  {
    hide Leads;
    hide Run;
    if x.Done? && x.sig.Normal? {
      forall i | 0 <= i < |slots|
        ensures slots[i] in regs1 && regs1[slots[i]] == x.env[..n][i]
      {
        assert more[i] == slots[i];
      }
    }
  }

  lemma FollowsFault(m: Module, f: Function, t: Trap, slots: seq<Name>, more: seq<Name>, exits: Exits,
                     c: Config, d: Spot, k: nat, regs1: Regs, fuel: nat)
    requires Ends(m, f, c, k, Trapped(t))
    ensures FollowsStmt(m, f, Faulted(t), slots, more, exits, c, d, k, regs1, fuel)
  {
  }

  lemma FollowsNormal(m: Module, f: Function, env: seq<Value>, slots: seq<Name>, more: seq<Name>, exits: Exits,
                      c: Config, d: Spot, k: nat, regs1: Regs, fuel: nat)
    requires Leads(m, f, c, k, SpotAt(d, regs1)) && Holds(env, more, regs1)
    ensures FollowsStmt(m, f, Done(Normal, env), slots, more, exits, c, d, k, regs1, fuel)
  {
    hide Leads;
  }

  // ----- expressions inside statements -----

  lemma RunExpr(m: Module, f: Function, e: Expr, g: seq<Decl>, env: seq<Value>, slots: seq<Name>, st: Ctx, regs: Regs)
    returns (k: nat, regs1: Regs)
    requires |env| == |g| && WfExpr(e, g) && Ready(st, g, slots) && Holds(env, slots, regs) && ExprFits(e, st, g, slots)
    requires Within(LowerExpr(e, st).0, f)
    ensures Follows(m, f, Eval(e, g, env), slots, st, LowerExpr(e, st).0, LowerExpr(e, st).1, regs, k, regs1)
  {
    hide LowerExpr;
    hide Eval;
    hide WfExpr;
    hide Holds;
    hide Within;
    ForExpr(e, st, g, slots);
    k, regs1 := SimExpr(m, f, e, g, env, slots, st, regs);
  }

  /** A condition and the branch on it.  One unit of fuel less, and the branch is not taken. */
  lemma RunBranch(m: Module, f: Function, e: Expr, g: seq<Decl>, env: seq<Value>, slots: seq<Name>, st: Ctx, regs: Regs,
                  yesL: Label, noL: Label, yes: nat, no: nat)
    returns (k: nat, regs1: Regs)
    requires |env| == |g| && WfExpr(e, g) && Ready(st, g, slots) && Holds(env, slots, regs) && ExprFits(e, st, g, slots)
    requires var (s1, c) := LowerExpr(e, st); Within(Emit(s1, BranchIf(c, yesL, noL)), f)
    requires IsBlock(f, yes, yesL) && IsBlock(f, no, noL)
    ensures var x := Eval(e, g, env);
            var a := Here(st, regs);
            if x.Fault? then Ends(m, f, a, k, Trapped(x.t))
            else if x.v.VInt? then Ends(m, f, a, k, Trapped(TypeError))
            else k >= 1 && Leads(m, f, a, k, Config(if x.v.b then yes else no, 0, regs1)) &&
                 Run(m, f, a, 0) == OutOfFuel && Holds(x.env, slots, regs1)
  {
    hide *;
    var (s1, c) := LowerExpr(e, st);
    var i := BranchIf(c, yesL, noL);
    var a := Here(st, regs);
    ReadyExpr(e, st, g, slots);
    EmitGrows(s1, i);
    WithinBefore(s1, Emit(s1, i), f);
    k, regs1 := RunExpr(m, f, e, g, env, slots, st, regs);
    var x := Eval(e, g, env);
    if x.Fault? {
      FaultOf(m, f, x, slots, st, s1, c, regs, k, regs1);
    } else {
      HoldsOf(m, f, x, slots, st, s1, c, regs, k, regs1);
      if x.v.VInt? {
        BranchTrap(c, yesL, noL, regs1);
        EmitStop(m, f, s1, i, regs1, Trapped(TypeError));
        LeadsEnds(m, f, a, k, Here(s1, regs1), 0, Trapped(TypeError));
      } else {
        BranchGoto(c, yesL, noL, regs1);
        var to := if x.v.b then yes else no;
        BlockTag(f, to, if x.v.b then yesL else noL);
        EmitGoto(m, f, s1, i, regs1, if x.v.b then yesL else noL, to);
        EmitNoFuel(m, f, s1, i, regs1, if x.v.b then yesL else noL);
        LeadsTrans(m, f, a, k, Here(s1, regs1), 1, Config(to, 0, regs1));
        LeadsEnds(m, f, a, k, Here(s1, regs1), 0, OutOfFuel);
        EndsRun(m, f, a, k, OutOfFuel);
        OutEarlier(m, f, a, 0, k);
        k := k + 1;
      }
    }
  }

  lemma EndsRun(m: Module, f: Function, a: Config, k: nat, o: Outcome)
    requires Ends(m, f, a, k, o)
    ensures Run(m, f, a, k) == o
  {
    hide Run;
  }

  lemma FaultOf(m: Module, f: Function, x: Evaluated, slots: seq<Name>, st: Ctx, r: Ctx, v: Name, regs: Regs, k: nat,
                regs1: Regs)
    requires x.Fault? && Follows(m, f, x, slots, st, r, v, regs, k, regs1)
    ensures Ends(m, f, Here(st, regs), k, Trapped(x.t))
  {
  }

  lemma BlockTag(f: Function, b: nat, l: Label)
    requires IsBlock(f, b, l)
    ensures b < |f.blocks| && f.blocks[b].tag == l
  {
  }

  lemma BranchTrap(c: Name, yesL: Label, noL: Label, regs: Regs)
    requires c in regs && regs[c].VInt?
    ensures Step(BranchIf(c, yesL, noL), regs) == Stop(Trapped(TypeError))
  {
  }

  lemma BranchGoto(c: Name, yesL: Label, noL: Label, regs: Regs)
    requires c in regs && regs[c].VBool?
    ensures Step(BranchIf(c, yesL, noL), regs) == Goto(if regs[c].b then yesL else noL)
  {
  }

  lemma EmitNoFuel(m: Module, f: Function, st: Ctx, i: Instr, regs: Regs, l: Label)
    requires Ok(st) && Within(Emit(st, i), f) && Step(i, regs) == Goto(l)
    ensures Ends(m, f, Here(st, regs), 0, OutOfFuel)
  {
    hide Step;
    assert f.blocks[st.cur].instrs[|st.blocks[st.cur].instrs|] == i;
  }

  lemma ReadyExpr(e: Expr, st: Ctx, g: seq<Decl>, slots: seq<Name>)
    requires Ready(st, g, slots)
    ensures var (r, v) := LowerExpr(e, st);
            Ready(r, g, slots) && Ok(r) && Grows(st, r) && v.Temp? && st.tempId < v.id <= r.tempId &&
            Slots(slots, st.varId) && r.types == st.types
  {
    hide LowerExpr;
    Start(st, g, slots);
    ExprWent(st, st, e, g, slots);
    ReadyOf(st, LowerExpr(e, st).0, g, slots);
    LowerExprGrows(e, st);
    ResultTemp(e, st);
    BindsSlots(st, g, slots);
  }

  // ----- liveness: code after a normal end is not cut off by a terminator -----

  lemma ExprLive(e: Expr, st: Ctx)
    requires Ok(st)
    ensures !Terminated(LowerExpr(e, st).0)
  {
    hide Emit;
    hide Terminated;
    hide Ok;
    hide Grows;
    hide EmitBin;
    hide OpenLogic;
    hide CloseLogic;
    match e {
      case EUn(op, arg) =>
        LowerExprGrows(arg, st);
        var (s1, v) := LowerExpr(arg, st);
        TempLive(if op == Neg && arg == ELit(-INT_MIN) then st else s1,
                 if op == Neg && arg == ELit(-INT_MIN) then Const(Temp(st.tempId + 1), IntText(INT_MIN))
                 else Unary(Temp(s1.tempId + 1), op, v));
      case EBin(op, left, right) =>
        LowerExprGrows(left, st);
        var (s1, l) := LowerExpr(left, st);
        LowerExprGrows(right, s1);
        var (s2, r) := LowerExpr(right, s1);
        BinLive(s2, op, l, r, Guess(left, s2) == TInt && Guess(right, s2) == TInt);
      case ELogic(isAnd, left, right) =>
        LowerExprGrows(left, st);
        var (s1, l) := LowerExpr(left, st);
        OpenLogicGrows(isAnd, l, s1);
        var (s2, q) := OpenLogic(isAnd, l, s1);
        LowerExprGrows(right, s2);
        var (s3, r) := LowerExpr(right, s2);
        CountsOf(s2, s3);
        CloseLive(r, q, s3);
      case ECond(cond, yes, no) =>
        LowerExprGrows(cond, st);
        var (s1, c) := LowerExpr(cond, st);
        LowerExprGrows(yes, s1);
        var (s2, a) := LowerExpr(yes, s1);
        LowerExprGrows(no, s2);
        var (s3, b) := LowerExpr(no, s2);
        TempLive(s3, Select(Temp(s3.tempId + 1), c, a, b));
      case ELit(n) => TempLive(st, Const(Temp(st.tempId + 1), IntText(n)));
      case EBool(b) => TempLive(st, Const(Temp(st.tempId + 1), RawBool(b)));
      case EVar(x) => TempLive(st, LoadVar(Temp(st.tempId + 1), Resolve(st, x)));
      case EInc(up, prefix, x) => IncLive(e, st);
    }
  }

  lemma IncLive(e: Expr, st: Ctx)
    requires Ok(st) && e.EInc?
    ensures !Terminated(LowerExpr(e, st).0)
  {
  }

  lemma TempLive(st: Ctx, i: Instr)
    requires Ok(st) && !IsTerminator(i)
    ensures !Terminated(Emit(NextTemp(st).0, i))
  {
  }

  lemma BinLive(st: Ctx, op: BinOp, l: Name, r: Name, intLike: bool)
    requires Ok(st)
    ensures !Terminated(EmitBin(st, op, l, r, intLike).0)
  {
    EmitAllGrows(st, Checks(op, l, r, intLike));
    TempLive(EmitAll(st, Checks(op, l, r, intLike)),
             Bin(Temp(EmitAll(st, Checks(op, l, r, intLike)).tempId + 1), op, l, r));
  }

  lemma CloseLive(r: Name, q: Logic, st: Ctx)
    requires Ok(st) && q.base + 2 < |st.blocks|
    ensures !Terminated(CloseLogic(r, q, st))
  {
  }

  predicate EndsNormally(x: Executed) {
    x.Done? && x.sig.Normal?
  }

  // ----- simple statements -----

  /** The conclusion about statement `s` lowered at `st`. */
  ghost predicate Simulates(m: Module, f: Function, s: Stmt, g: seq<Decl>, env: seq<Value>, slots: seq<Name>,
                            exits: Exits, st: Ctx, regs: Regs, fuel: nat, k: nat, regs1: Regs)
    requires |env| == |g|
  {
    var x := Exec(s, g, env, fuel);
    FollowsStmt(m, f, x, slots, SlotsAfter(s, slots, st), exits, Here(st, regs), End(LowerStmt(s, st)), k, regs1,
                fuel) &&
    (EndsNormally(x) ==> !Terminated(LowerStmt(s, st)))
  }

  lemma SimReturn(m: Module, f: Function, s: Stmt, g: seq<Decl>, env: seq<Value>, slots: seq<Name>, exits: Exits,
                  st: Ctx, regs: Regs, fuel: nat, brk: bool, lp: bool)
    returns (k: nat, regs1: Regs)
    requires |env| == |g| && Ready(st, g, slots) && Holds(env, slots, regs) && WfStmt(s, g, brk, lp) &&
             StmtFits(s, st, g, slots)
    requires Within(LowerStmt(s, st), f) && s.SReturn? && s.result.Some?
    ensures Simulates(m, f, s, g, env, slots, exits, st, regs, fuel, k, regs1)
  {
    hide Run;
    hide Leads;
    hide LowerExpr;
    hide Eval;
    hide WfExpr;
    hide Within;
    hide Holds;
    hide Ready;
    hide Ok;
    hide Emit;
    hide Grows;
    hide Binds;
    var e := s.result.value;
    var (s1, v) := LowerExpr(e, st);
    ReadyOk(st, g, slots);
    ReadyExpr(e, st, g, slots);
    EmitGrows(s1, Ret(v));
    WithinBefore(s1, Emit(s1, Ret(v)), f);
    k, regs1 := RunExpr(m, f, e, g, env, slots, st, regs);
    var x := Eval(e, g, env);
    if x.Val? {
      EmitStop(m, f, s1, Ret(v), regs1, Returned(x.v));
      LeadsEnds(m, f, Here(st, regs), k, Here(s1, regs1), 0, Returned(x.v));
    }
  }

  lemma SimSimple(m: Module, f: Function, s: Stmt, g: seq<Decl>, env: seq<Value>, slots: seq<Name>, exits: Exits,
                  st: Ctx, regs: Regs, fuel: nat, brk: bool, lp: bool)
    returns (k: nat, regs1: Regs)
    requires |env| == |g| && Ready(st, g, slots) && Holds(env, slots, regs) && WfStmt(s, g, brk, lp) &&
             StmtFits(s, st, g, slots)
    requires Within(LowerStmt(s, st), f) && Targets(st, f, brk, lp, exits)
    requires s.SExpr? || s.SReturn? || s.SBreak? || s.SContinue?
    ensures Simulates(m, f, s, g, env, slots, exits, st, regs, fuel, k, regs1)
  {
    hide Run;
    hide Leads;
    hide LowerExpr;
    hide Eval;
    hide WfExpr;
    hide Within;
    hide Holds;
    hide Ready;
    hide Ok;
    hide Emit;
    hide Binds;
    k, regs1 := 0, regs;
    if s.SExpr? {
      k, regs1 := RunExpr(m, f, s.e, g, env, slots, st, regs);
      ReadyOk(st, g, slots);
      ExprLive(s.e, st);
    } else if s.SReturn? && s.result.Some? {
      k, regs1 := SimReturn(m, f, s, g, env, slots, exits, st, regs, fuel, brk, lp);
    } else {
      k := SimLeave(m, f, s, g, env, slots, exits, st, regs, fuel, brk, lp);
    }
  }

  lemma SimLeave(m: Module, f: Function, s: Stmt, g: seq<Decl>, env: seq<Value>, slots: seq<Name>, exits: Exits,
                 st: Ctx, regs: Regs, fuel: nat, brk: bool, lp: bool)
    returns (k: nat)
    requires |env| == |g| && Ready(st, g, slots) && Holds(env, slots, regs) && WfStmt(s, g, brk, lp)
    requires Within(LowerStmt(s, st), f) && Targets(st, f, brk, lp, exits)
    requires s == SReturn(None) || s.SBreak? || s.SContinue?
    ensures Simulates(m, f, s, g, env, slots, exits, st, regs, fuel, k, regs)
  {
    hide Run;
    hide Leads;
    hide LowerExpr;
    hide Within;
    hide Holds;
    hide Ready;
    hide Ok;
    hide Emit;
    hide Binds;
    k := 0;
    ReadyOk(st, g, slots);
    if s.SReturn? {
      EmitStop(m, f, st, RetVoid, regs, ReturnedVoid);
    } else {
      var l := if s.SBreak? then st.breaks[|st.breaks| - 1] else st.loops[|st.loops| - 1].continueLabel;
      EmitGoto(m, f, st, Jump(l), regs, l, if s.SBreak? then exits.brk else exits.cont);
      k := 1;
    }
  }

  lemma ReadyOk(st: Ctx, g: seq<Decl>, slots: seq<Name>)
    requires Ready(st, g, slots)
    ensures Ok(st) && Binds(st, g, slots) && Slots(slots, st.varId) && |slots| == |g|
  {
    BindsSlots(st, g, slots);
  }

  lemma SimDecl(m: Module, f: Function, s: Stmt, g: seq<Decl>, env: seq<Value>, slots: seq<Name>, exits: Exits,
                st: Ctx, regs: Regs, fuel: nat, brk: bool, lp: bool)
    returns (k: nat, regs1: Regs)
    requires |env| == |g| && Ready(st, g, slots) && Holds(env, slots, regs) && WfStmt(s, g, brk, lp) &&
             StmtFits(s, st, g, slots)
    requires Within(LowerStmt(s, st), f) && s.SDecl?
    ensures Simulates(m, f, s, g, env, slots, exits, st, regs, fuel, k, regs1)
  {
    hide *;
    if s.init.None? {
      k, regs1 := SimDefault(m, f, s, g, env, slots, exits, st, regs, fuel);
    } else {
      k, regs1 := SimInit(m, f, s, g, env, slots, exits, st, regs, fuel, brk, lp);
    }
  }

  /** `var_decl`, then the code that follows it. */
  lemma DeclHead(m: Module, f: Function, st: Ctx, d: Decl, g: seq<Decl>, slots: seq<Name>, regs: Regs)
    requires Ready(st, g, slots)
    requires var (s1, ir) := NextVar(st, d.name); Within(Emit(Define(s1, d, ir), VarDecl(ir)), f)
    ensures var (s1, ir) := NextVar(st, d.name);
            var s3 := Emit(Define(s1, d, ir), VarDecl(ir));
            Leads(m, f, Here(st, regs), 0, Here(s3, regs)) && Ready(s3, g + [d], slots + [ir]) && Ok(s3)
  {
    hide Run;
    hide Leads;
    hide Went;
    hide Within;
    var (s1, ir) := NextVar(st, d.name);
    var s2 := Define(s1, d, ir);
    DefineWent(st, d, g, slots);
    EmitWent(st, s2, VarDecl(ir), g + [d], slots + [ir]);
    ReadyOf(st, s2, g + [d], slots + [ir]);
    ReadyOf(st, Emit(s2, VarDecl(ir)), g + [d], slots + [ir]);
    assert Here(st, regs) == Here(s2, regs);
    LeadsSelf(m, f, Here(st, regs));
    hide Emit;
    SimEmit(m, f, Here(st, regs), 0, s2, VarDecl(ir), regs, regs);
  }

  /** The two instructions that give a variable its default value. */
  lemma DefaultRun(m: Module, f: Function, ty: Ty, ir: Name, s3: Ctx, regs: Regs, a: Config, slots: seq<Name>, n: nat,
                   env: seq<Value>)
    returns (regs1: Regs)
    requires Ok(s3) && Leads(m, f, a, 0, Here(s3, regs)) && Holds(env, slots, regs) && Slots(slots, n)
    requires |env| == |slots| && ir.Local? && ir.id > n
    requires var dst := Temp(s3.tempId + 1);
             var i := Const(dst, if ty == TBool then RawBool(false) else IntText(0));
             Within(Emit(Emit(NextTemp(s3).0, i), StoreVar(ir, dst)), f)
    ensures var dst := Temp(s3.tempId + 1);
            var i := Const(dst, if ty == TBool then RawBool(false) else IntText(0));
            var r := Emit(Emit(NextTemp(s3).0, i), StoreVar(ir, dst));
            Leads(m, f, a, 0, Here(r, regs1)) && Holds(env + [Default(ty)], slots + [ir], regs1) && !Terminated(r)
  {
    hide Run;
    hide Leads;
    hide Within;
    hide Holds;
    hide Grows;
    hide Emit;
    hide Ok;
    hide LowerExpr;
    hide Eval;
    var dst := Temp(s3.tempId + 1);
    var s4 := NextTemp(s3).0;
    var i := Const(dst, if ty == TBool then RawBool(false) else IntText(0));
    var s5 := Emit(s4, i);
    var store := StoreVar(ir, dst);
    TempGrows(s3, 1);
    EmitGrows(s4, i);
    EmitGrows(s5, store);
    WithinBefore(s5, Emit(s5, store), f);
    var w := Default(ty);
    assert Here(s4, regs) == Here(s3, regs);
    SimEmit(m, f, a, 0, s4, i, regs, regs[dst := w]);
    HoldsTemp(env, slots, n, regs, s3.tempId + 1, w);
    regs1 := regs[dst := w][ir := w];
    SimEmit(m, f, a, 0, s5, store, regs[dst := w], regs1);
    HoldsNew(env, slots, n, regs[dst := w], ir, w);
    EmitLive(s5, store);
  }

  lemma SimDefault(m: Module, f: Function, s: Stmt, g: seq<Decl>, env: seq<Value>, slots: seq<Name>, exits: Exits,
                   st: Ctx, regs: Regs, fuel: nat)
    returns (k: nat, regs1: Regs)
    requires |env| == |g| && Ready(st, g, slots) && Holds(env, slots, regs)
    requires Within(LowerStmt(s, st), f) && s.SDecl? && s.init.None?
    ensures Simulates(m, f, s, g, env, slots, exits, st, regs, fuel, k, regs1)
  {
    hide Run;
    hide Leads;
    hide Within;
    hide Holds;
    hide Ready;
    hide Grows;
    hide Emit;
    hide Ok;
    hide Binds;
    hide Step;
    hide LowerStmt;
    k := 0;
    var d := s.decl;
    var (s1, ir) := NextVar(st, d.name);
    var s3 := Emit(Define(s1, d, ir), VarDecl(ir));
    var dst := Temp(s3.tempId + 1);
    var i := Const(dst, if d.ty == TBool then RawBool(false) else IntText(0));
    var s5 := Emit(NextTemp(s3).0, i);
    DefaultIs(s, st);
    DeclOk(st, d, g, slots);
    TempGrows(s3, 1);
    EmitGrows(NextTemp(s3).0, i);
    EmitGrows(s5, StoreVar(ir, dst));
    WithinBefore(s5, LowerStmt(s, st), f);
    WithinBefore(NextTemp(s3).0, s5, f);
    WithinTwin(NextTemp(s3).0, s3, f);
    DeclHead(m, f, st, d, g, slots, regs);
    ReadyOk(st, g, slots);
    regs1 := DefaultRun(m, f, d.ty, ir, s3, regs, Here(st, regs), slots, st.varId, env);
  }

  lemma DefaultIs(s: Stmt, st: Ctx)
    requires s.SDecl? && s.init.None?
    ensures var d := s.decl;
            var (s1, ir) := NextVar(st, d.name);
            var s3 := Emit(Define(s1, d, ir), VarDecl(ir));
            var dst := Temp(s3.tempId + 1);
            LowerStmt(s, st) == Emit(Emit(NextTemp(s3).0,
                                          Const(dst, if d.ty == TBool then RawBool(false) else IntText(0))),
                                     StoreVar(ir, dst))
  {
    hide Emit;
    var d := s.decl;
    var (s1, ir) := NextVar(st, d.name);
    var s2 := Define(s1, d, ir);
    EmitIs(s2, VarDecl(ir));
    ResolveNewest(st, d, ir);
    EmitIs(NextTemp(Emit(s2, VarDecl(ir))).0,
           Const(Temp(Emit(s2, VarDecl(ir)).tempId + 1), if d.ty == TBool then RawBool(false) else IntText(0)));
  }

  lemma DeclOk(st: Ctx, d: Decl, g: seq<Decl>, slots: seq<Name>)
    requires Ready(st, g, slots)
    ensures var (s1, ir) := NextVar(st, d.name); Ok(Emit(Define(s1, d, ir), VarDecl(ir)))
  {
    var (s1, ir) := NextVar(st, d.name);
    hide Went;
    DefineWent(st, d, g, slots);
    EmitWent(st, Define(s1, d, ir), VarDecl(ir), g + [d], slots + [ir]);
    ReadyOf(st, Emit(Define(s1, d, ir), VarDecl(ir)), g + [d], slots + [ir]);
  }

  lemma SimInit(m: Module, f: Function, s: Stmt, g: seq<Decl>, env: seq<Value>, slots: seq<Name>, exits: Exits,
                st: Ctx, regs: Regs, fuel: nat, brk: bool, lp: bool)
    returns (k: nat, regs1: Regs)
    requires |env| == |g| && Ready(st, g, slots) && Holds(env, slots, regs) && WfStmt(s, g, brk, lp) &&
             StmtFits(s, st, g, slots)
    requires Within(LowerStmt(s, st), f) && s.SDecl? && s.init.Some?
    ensures Simulates(m, f, s, g, env, slots, exits, st, regs, fuel, k, regs1)
  {
    hide Run;
    hide Leads;
    hide LowerExpr;
    hide Eval;
    hide WfExpr;
    hide Within;
    hide Holds;
    hide Ready;
    hide Grows;
    hide Emit;
    hide Ok;
    hide Binds;
    hide Mentions;
    k, regs1 := 0, regs;
    var d, e := s.decl, s.init.value;
    var (s1, ir) := NextVar(st, d.name);
    var s3 := Emit(Define(s1, d, ir), VarDecl(ir));
    var (s4, v) := LowerExpr(e, s3);
    var store := StoreVar(ir, v);
    EmitIs(Define(s1, d, ir), VarDecl(ir));
    DeclOk(st, d, g, slots);
    LowerExprGrows(e, s3);
    ResultTemp(e, s3);
    ResolveNewest(st, d, ir);
    assert LowerStmt(s, st) == Emit(s4, store);
    EmitGrows(s4, store);
    WithinBefore(s4, Emit(s4, store), f);
    WithinBefore(s3, s4, f);
    DeclHead(m, f, st, d, g, slots, regs);
    ReadyOk(st, g, slots);
    InitBinds(e, st, s3, d, g, slots);
    TypesApart(st.types, ir, d.ty, slots);
    var a := Here(st, regs);
    var k1, r1 := SimExpr(m, f, e, g, env, slots, s3, regs);
    var x := Eval(e, g, env);
    k := k1;
    if x.Fault? {
      FaultOf(m, f, x, slots, s3, s4, v, regs, k1, r1);
      LeadsEnds(m, f, a, 0, Here(s3, regs), k1, Trapped(x.t));
    } else {
      HoldsOf(m, f, x, slots, s3, s4, v, regs, k1, r1);
      LeadsTrans(m, f, a, 0, Here(s3, regs), k1, Here(s4, r1));
      regs1 := r1[ir := x.v];
      SimEmit(m, f, a, k1, s4, store, r1, regs1);
      HoldsNew(x.env, slots, st.varId, r1, ir, x.v);
      EmitLive(s4, store);
    }
  }

  lemma EmitLive(st: Ctx, i: Instr)
    requires Ok(st) && !IsTerminator(i)
    ensures !Terminated(Emit(st, i))
  {
  }

  lemma WithinTwin(a: Ctx, b: Ctx, f: Function)
    requires Within(a, f) && b.blocks == a.blocks
    ensures Within(b, f)
  {
  }

  /** The new name is what the scope finds, also while its initialiser is lowered. */
  lemma ResolveNewest(st: Ctx, d: Decl, ir: Name)
    ensures Lookup(st.scope + [Binding(d.name, ir)], d.name) == Some(ir)
  {
  }

  lemma HoldsNew(env: seq<Value>, slots: seq<Name>, n: nat, regs: Regs, ir: Name, v: Value)
    requires Holds(env, slots, regs) && Slots(slots, n) && ir.Local? && ir.id > n && |env| == |slots|
    ensures Holds(env + [v], slots + [ir], regs[ir := v])
  {
  }

  lemma InitBinds(e: Expr, st: Ctx, st1: Ctx, d: Decl, g: seq<Decl>, slots: seq<Name>)
    requires Binds(st, g, slots) && !Mentions(e, d.name)
    requires var ir := Local(d.name, st.varId + 1);
             st1.scope == st.scope + [Binding(d.name, ir)] && st.varId <= st1.varId
    ensures BindsFor(e, st1, g, slots)
  {
    assert st1.scope[..|st.scope|] == st.scope;
    forall x: string | Mentions(e, x)
      ensures NameAgrees(st1, g, slots, x)
    {
      assert NameAgrees(st, g, slots, x);
    }
  }

  lemma SimAssign(m: Module, f: Function, s: Stmt, g: seq<Decl>, env: seq<Value>, slots: seq<Name>, exits: Exits,
                  st: Ctx, regs: Regs, fuel: nat, brk: bool, lp: bool)
    returns (k: nat, regs1: Regs)
    requires |env| == |g| && Ready(st, g, slots) && Holds(env, slots, regs) && WfStmt(s, g, brk, lp) &&
             StmtFits(s, st, g, slots)
    requires Within(LowerStmt(s, st), f) && s.SAssign?
    ensures Simulates(m, f, s, g, env, slots, exits, st, regs, fuel, k, regs1)
  {
    hide *;
    if s.aop.None? {
      k, regs1 := SimPlain(m, f, s, g, env, slots, exits, st, regs, fuel, brk, lp);
    } else {
      k, regs1 := SimCompound(m, f, s, g, env, slots, exits, st, regs, fuel, brk, lp);
    }
  }

  lemma StoreRun(m: Module, f: Function, s: Stmt, st: Ctx, s1: Ctx, v: Name, w: Value, at: nat, g: seq<Decl>,
                 env: seq<Value>, slots: seq<Name>, a: Config, k: nat, r1: Regs)
    returns (regs1: Regs)
    requires s.SAssign? && Binds(s1, g, slots) && Find(g, s.x) == Some(at) && Ok(s1) && |env| == |g|
    requires Leads(m, f, a, k, Here(s1, r1)) && Holds(env, slots, r1) && v in r1 && r1[v] == w
    requires Within(Emit(s1, StoreVar(Resolve(s1, s.x), v)), f)
    ensures Leads(m, f, a, k, SpotAt(End(Emit(s1, StoreVar(Resolve(s1, s.x), v))), regs1)) &&
            Holds(env[at := w], slots, regs1)
    ensures !Terminated(Emit(s1, StoreVar(Resolve(s1, s.x), v)))
  {
    hide Run;
    hide Leads;
    hide Within;
    hide Holds;
    BindsSlots(s1, g, slots);
    assert NameAgrees(s1, g, slots, s.x);
    var store := StoreVar(slots[at], v);
    regs1 := r1[slots[at] := w];
    SimEmit(m, f, a, k, s1, store, r1, regs1);
    HoldsUpdate(env, slots, s1.varId, r1, at, w);
    EmitLive(s1, store);
  }

  lemma SimPlain(m: Module, f: Function, s: Stmt, g: seq<Decl>, env: seq<Value>, slots: seq<Name>, exits: Exits,
                 st: Ctx, regs: Regs, fuel: nat, brk: bool, lp: bool)
    returns (k: nat, regs1: Regs)
    requires |env| == |g| && Ready(st, g, slots) && Holds(env, slots, regs) && WfStmt(s, g, brk, lp) &&
             StmtFits(s, st, g, slots)
    requires Within(LowerStmt(s, st), f) && s.SAssign? && s.aop.None?
    ensures Simulates(m, f, s, g, env, slots, exits, st, regs, fuel, k, regs1)
  {
    hide Run;
    hide Leads;
    hide LowerExpr;
    hide Eval;
    hide WfExpr;
    hide Within;
    hide Holds;
    hide Went;
    hide Ready;
    hide Emit;
    hide Binds;
    hide Ok;
    hide Grows;
    hide TypeOf;
    hide Guess;
    hide Terminated;
    var (s1, v) := LowerExpr(s.rhs, st);
    var s2 := s1.(types := s1.types[Resolve(s1, s.x) := Guess(s.rhs, s1)]);
    var store := StoreVar(Resolve(s2, s.x), v);
    assert LowerStmt(s, st) == Emit(s2, store);
    Start(st, g, slots);
    ExprWent(st, st, s.rhs, g, slots);
    RetypeWent(st, s1, Resolve(s1, s.x), Guess(s.rhs, s1), g, slots);
    ReadyOf(st, s2, g, slots);
    EmitGrows(s2, store);
    WithinBefore(s2, Emit(s2, store), f);
    WithinTwin(s2, s1, f);
    k, regs1 := RunExpr(m, f, s.rhs, g, env, slots, st, regs);
    var x := Eval(s.rhs, g, env);
    if x.Val? {
      HoldsOf(m, f, x, slots, st, s1, v, regs, k, regs1);
      assert Here(s2, regs1) == Here(s1, regs1);
      regs1 := StoreRun(m, f, s, st, s2, v, x.v, Find(g, s.x).value, g, x.env, slots, Here(st, regs), k, regs1);
    }
  }

  /** What lowered code makes of `x op= e`: the variable is read after `e` has run. */
  ghost function LateAssign(s: Stmt, g: seq<Decl>, env: seq<Value>): Executed
    requires s.SAssign? && s.aop.Some? && |env| == |g| && Find(g, s.x).Some?
  {
    var at := Find(g, s.x).value;
    match Eval(s.rhs, g, env)
    case Fault(t) => Faulted(t)
    case Val(v, env1) =>
      match Operate(s.aop.value, env1[at], v) case Good(w) => Done(Normal, env1[at := w]) case Bad(t) => Faulted(t)
  }

  lemma CompoundParts(s: Stmt, g: seq<Decl>, env: seq<Value>, st: Ctx, fuel: nat)
    requires s.SAssign? && s.aop.Some? && |env| == |g| && Find(g, s.x).Some?
    ensures var (s1, v) := LowerExpr(s.rhs, st);
            var (s2, cur) := LowerExpr(EVar(s.x), s1);
            var (s3, next) := EmitBin(s2, s.aop.value, cur, v, Guess(EVar(s.x), s1) == TInt &&
                                                               Guess(s.rhs, s1) == TInt);
            LowerStmt(s, st) == Emit(s3, StoreVar(Resolve(s3, s.x), next))
    ensures var at := Find(g, s.x).value;
            var x := Eval(s.rhs, g, env);
            Exec(s, g, env, fuel) ==
            if x.Fault? then Faulted(x.t)
            else match Operate(s.aop.value, env[at], x.v) case Good(w) => Done(Normal, x.env[at := w]) case Bad(t) =>
                   Faulted(t)
    ensures var at := Find(g, s.x).value;
            var x := Eval(s.rhs, g, env);
            LateAssign(s, g, env) ==
            if x.Fault? then Faulted(x.t)
            else match Operate(s.aop.value, x.env[at], x.v) case Good(w) => Done(Normal, x.env[at := w]) case Bad(t) =>
                   Faulted(t)
  {
    hide LowerExpr;
    hide EmitBin;
    hide Emit;
    hide Operate;
    hide Eval;
  }

  lemma SimCompound(m: Module, f: Function, s: Stmt, g: seq<Decl>, env: seq<Value>, slots: seq<Name>, exits: Exits,
                    st: Ctx, regs: Regs, fuel: nat, brk: bool, lp: bool)
    returns (k: nat, regs1: Regs)
    requires |env| == |g| && Ready(st, g, slots) && Holds(env, slots, regs) && WfStmt(s, g, brk, lp) &&
             StmtFits(s, st, g, slots)
    requires Within(LowerStmt(s, st), f) && s.SAssign? && s.aop.Some?
    ensures Simulates(m, f, s, g, env, slots, exits, st, regs, fuel, k, regs1)
  {
    hide *;
    CompoundWf(s, g, brk, lp);
    CompoundParts(s, g, env, st, fuel);
    k, regs1 := SimLate(m, f, s, g, env, slots, exits, st, regs, fuel);
    EvalUnchanged(s.rhs, g, env, s.x);
    CompoundIs(m, f, s, g, env, slots, exits, st, regs, fuel, k, regs1);
  }

  /** For all right-hand sides, also those that change `x`. */
  lemma SimLate(m: Module, f: Function, s: Stmt, g: seq<Decl>, env: seq<Value>, slots: seq<Name>, exits: Exits,
                st: Ctx, regs: Regs, fuel: nat)
    returns (k: nat, regs1: Regs)
    requires s.SAssign? && s.aop.Some? && |env| == |g| && Ready(st, g, slots) && Holds(env, slots, regs) &&
             Within(LowerStmt(s, st), f)
    requires Find(g, s.x).Some? && WfExpr(s.rhs, g) && StmtFits(s, st, g, slots)
    ensures FollowsStmt(m, f, LateAssign(s, g, env), slots, slots, exits, Here(st, regs), End(LowerStmt(s, st)), k,
                        regs1, fuel)
    ensures EndsNormally(LateAssign(s, g, env)) ==> !Terminated(LowerStmt(s, st))
  {
    hide *;
    var op := s.aop.value;
    CompoundParts(s, g, env, st, fuel);
    var at := Find(g, s.x).value;
    var (s1, v) := LowerExpr(s.rhs, st);
    var (s2, cur) := LowerExpr(EVar(s.x), s1);
    var intLike := Guess(EVar(s.x), s1) == TInt && Guess(s.rhs, s1) == TInt;
    var (s3, next) := EmitBin(s2, op, cur, v, intLike);
    var store := StoreVar(Resolve(s3, s.x), next);
    VarWf(s.x, g);
    ReadyExpr(s.rhs, st, g, slots);
    ReadyExpr(EVar(s.x), s1, g, slots);
    CompoundFits(s, st, s1, g, slots);
    CompoundIntLike(s, s1, g, slots);
    Start(s2, g, slots);
    BinWent(s2, s2, op, cur, v, intLike, g, slots);
    ReadyOf(s2, s3, g, slots);
    EmitGrows(s3, store);
    WithinBefore(s3, Emit(s3, store), f);
    WithinBefore(s2, s3, f);
    // both operands, the right-hand side first
    var parent := EBin(op, s.rhs, EVar(s.x));
    ReadyOk(st, g, slots);
    ForExpr(parent, st, g, slots);
    ParentMentions(op, s.rhs, s.x);
    var ks := Kinds(st.scope, st.types);
    WfIsLegal(s.rhs, g);
    WfIsLegal(EVar(s.x), g);
    k, regs1 := SimTwo(m, f, parent, s.rhs, EVar(s.x), ks, g, env, slots, st, regs);
    TwoIs(s.rhs, EVar(s.x), ks, g, env);
    BindsSub(parent, s.rhs, st, g, slots);
    LoweredIsEval(s.rhs, st, g, env, slots);
    var x := Eval(s.rhs, g, env);
    var y := LoweredTwo(s.rhs, EVar(s.x), ks, g, env);
    if x.Val? {
      VarEval(s.x, ks, g, x.env);
      IntLikeIs(op, x.env[at], x.v);
      HoldsOf(m, f, y, slots, st, s2, cur, regs, k, regs1);
      regs1 := FollowsBin(m, f, slots, st.varId, x.env[at], x.v, y, st, s2, cur, op, cur, v, intLike, regs, k, regs1);
      k, regs1 := CompoundStore(m, f, s, op, x.env[at], x.v, y, g, slots, exits, st, s3, next, regs, k, regs1, fuel);
    } else {
      FaultOf(m, f, y, slots, st, s2, cur, regs, k, regs1);
      FollowsFault(m, f, x.t, slots, slots, exits, Here(st, regs), End(LowerStmt(s, st)), k, regs1, fuel);
      FaultEnds(x.t);
    }
  }

  lemma FaultEnds(t: Trap)
    ensures !EndsNormally(Faulted(t))
  {
  }

  lemma VarWf(x: string, g: seq<Decl>)
    requires Find(g, x).Some?
    ensures WfExpr(EVar(x), g)
  {
  }

  lemma CompoundWf(s: Stmt, g: seq<Decl>, brk: bool, lp: bool)
    requires s.SAssign? && s.aop.Some? && WfStmt(s, g, brk, lp)
    ensures Find(g, s.x).Some? && WfExpr(s.rhs, g) && WfExpr(EVar(s.x), g) && !Changes(s.rhs, s.x)
  {
  }

  lemma CompoundFits(s: Stmt, st: Ctx, s1: Ctx, g: seq<Decl>, slots: seq<Name>)
    requires s.SAssign? && s.aop.Some? && StmtFits(s, st, g, slots) && s1.types == st.types
    ensures StmtFits(s, s1, g, slots) && ExprFits(s.rhs, st, g, slots)
  {
  }

  lemma CompoundIntLike(s: Stmt, s1: Ctx, g: seq<Decl>, slots: seq<Name>)
    requires s.SAssign? && s.aop.Some? && Ready(s1, g, slots) && StmtFits(s, s1, g, slots)
    requires WfExpr(s.rhs, g) && Find(g, s.x).Some?
    ensures Guess(EVar(s.x), s1) == TInt && Guess(s.rhs, s1) == TInt
  {
    ForExpr(EVar(s.x), s1, g, slots);
    ForExpr(s.rhs, s1, g, slots);
    GuessIsType(EVar(s.x), s1, g, slots);
    GuessIsType(s.rhs, s1, g, slots);
  }

  lemma ParentMentions(op: BinOp, e: Expr, x: string)
    ensures forall y: string :: Mentions(e, y) || Mentions(EVar(x), y) ==> Mentions(EBin(op, e, EVar(x)), y)
  {
  }

  lemma VarEval(x: string, ks: Kinds, g: seq<Decl>, env: seq<Value>)
    requires |env| == |g| && Find(g, x).Some?
    ensures EvalLowered(EVar(x), ks, g, env) == Val(env[Find(g, x).value], env)
  {
  }

  lemma IntLikeIs(op: BinOp, a: Value, b: Value)
    ensures Compute(op, true, a, b) == Operate(op, a, b)
  {
  }

  lemma CompoundStore(m: Module, f: Function, s: Stmt, op: BinOp, a: Value, b: Value, y: Evaluated, g: seq<Decl>,
                      slots: seq<Name>, exits: Exits,
                      st: Ctx, s3: Ctx, next: Name, regs: Regs, k1: nat, r1: Regs, fuel: nat)
    returns (k: nat, regs1: Regs)
    requires s.SAssign? && Find(g, s.x).Some? && y.Val? && |y.env| == |g| && Ready(s3, g, slots)
    requires Follows(m, f, match Operate(op, a, b) case Good(w) => Val(w, y.env) case Bad(t) =>
                             Fault(t), slots, st, s3, next, regs, k1, r1)
    requires Within(Emit(s3, StoreVar(Resolve(s3, s.x), next)), f)
    ensures var at := Find(g, s.x).value;
            var r := Emit(s3, StoreVar(Resolve(s3, s.x), next));
            FollowsStmt(m, f, match Operate(op, a, b) case Good(w) => Done(Normal, y.env[at := w]) case Bad(t) =>
                                Faulted(t),
                        slots, slots, exits, Here(st, regs), End(r), k, regs1, fuel) &&
            !Terminated(r)
  {
    hide Run;
    hide Leads;
    hide Operate;
    hide Within;
    hide Holds;
    hide Binds;
    hide Ok;
    hide Emit;
    hide Terminated;
    k, regs1 := k1, r1;
    EmitLive(s3, StoreVar(Resolve(s3, s.x), next));
    match Operate(op, a, b)
    case Good(w) =>
      regs1 := StoreRun(m, f, s, st, s3, next, w, Find(g, s.x).value, g, y.env, slots, Here(st, regs), k1, r1);
    case Bad(t) =>
  }

  lemma FaultIs(m: Module, f: Function, t: Trap, s: Stmt, g: seq<Decl>, env: seq<Value>, slots: seq<Name>, exits: Exits,
                st: Ctx, regs: Regs, fuel: nat, k: nat, regs1: Regs)
    requires |env| == |g| && Exec(s, g, env, fuel) == Faulted(t) && Ends(m, f, Here(st, regs), k, Trapped(t))
    ensures Simulates(m, f, s, g, env, slots, exits, st, regs, fuel, k, regs1)
  {
    hide Exec;
    hide LowerStmt;
  }

  lemma CompoundIs(m: Module, f: Function, s: Stmt, g: seq<Decl>, env: seq<Value>, slots: seq<Name>, exits: Exits,
                   st: Ctx, regs: Regs, fuel: nat, k: nat, regs1: Regs)
    requires |env| == |g| && !s.SDecl?
    requires FollowsStmt(m, f, Exec(s, g, env, fuel), slots, slots, exits, Here(st, regs), End(LowerStmt(s, st)), k,
                         regs1, fuel)
    requires EndsNormally(Exec(s, g, env, fuel)) ==> !Terminated(LowerStmt(s, st))
    ensures Simulates(m, f, s, g, env, slots, exits, st, regs, fuel, k, regs1)
  {
    hide FollowsStmt;
    hide Exec;
    hide LowerStmt;
  }
}
