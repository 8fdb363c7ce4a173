/** Lowered expressions: a run of the emitted blocks follows the evaluation of the source. */
module ExprMeaning {
  import opened Options
  import opened Ir
  import opened Source
  import opened Lowering
  import opened WorkingGraph
  import opened Static
  import opened Names
  import opened LoweredEval

  // ----- runs of the final graph -----

  /** `f` contains everything emitted so far. */
  ghost predicate Within(st: Ctx, f: Function) {
    Distinct(f.blocks) && |st.blocks| <= |f.blocks| &&
    forall i :: 0 <= i < |st.blocks| ==>
                  st.blocks[i].tag == f.blocks[i].tag && st.blocks[i].instrs <= f.blocks[i].instrs
  }

  lemma WithinBefore(a: Ctx, b: Ctx, f: Function)
    requires Grows(a, b) && Within(b, f)
    ensures Within(a, f)
  {
  }

  /** Just after the code emitted so far into the current block. */
  ghost function Here(st: Ctx, regs: Regs): Config {
    Config(st.cur, if st.cur < |st.blocks| then |st.blocks[st.cur].instrs| else 0, regs)
  }

  /** From `c` the run gets to `d`, spending `k` fuel. */
  ghost predicate Leads(m: Module, f: Function, c: Config, k: nat, d: Config) {
    forall j: nat :: Run(m, f, c, k + j) == Run(m, f, d, j)
  }

  ghost predicate Ends(m: Module, f: Function, c: Config, k: nat, o: Outcome) {
    Run(m, f, c, k) == o
  }

  lemma LeadsTrans(m: Module, f: Function, a: Config, k: nat, b: Config, l: nat, c: Config)
    requires Leads(m, f, a, k, b) && Leads(m, f, b, l, c)
    ensures Leads(m, f, a, k + l, c)
  {
    hide Run;
    forall j: nat
      ensures Run(m, f, a, k + l + j) == Run(m, f, c, j)
    {
      assert Run(m, f, a, k + (l + j)) == Run(m, f, b, l + j);
    }
  }

  lemma LeadsEnds(m: Module, f: Function, a: Config, k: nat, b: Config, l: nat, o: Outcome)
    requires Leads(m, f, a, k, b) && Ends(m, f, b, l, o)
    ensures Ends(m, f, a, k + l, o)
  {
    hide Run;
  }

  lemma LeadsSelf(m: Module, f: Function, c: Config)
    ensures Leads(m, f, c, 0, c)
  {
    hide Run;
  }

  // ----- one emitted instruction -----

  lemma EmitStep(m: Module, f: Function, st: Ctx, i: Instr, regs: Regs, regs1: Regs)
    requires Ok(st) && Within(Emit(st, i), f) && Step(i, regs) == Next(regs1)
    ensures Leads(m, f, Here(st, regs), 0, Here(Emit(st, i), regs1))
  {
    hide Step;
    assert f.blocks[st.cur].instrs[|st.blocks[st.cur].instrs|] == i;
  }

  lemma EmitStop(m: Module, f: Function, st: Ctx, i: Instr, regs: Regs, o: Outcome)
    requires Ok(st) && Within(Emit(st, i), f) && Step(i, regs) == Stop(o)
    ensures Ends(m, f, Here(st, regs), 0, o)
  {
    hide Step;
    assert f.blocks[st.cur].instrs[|st.blocks[st.cur].instrs|] == i;
  }

  lemma EmitGoto(m: Module, f: Function, st: Ctx, i: Instr, regs: Regs, l: Label, b: nat)
    requires Ok(st) && Within(Emit(st, i), f) && Step(i, regs) == Goto(l)
    requires b < |f.blocks| && f.blocks[b].tag == l
    ensures Leads(m, f, Here(st, regs), 1, Config(b, 0, regs))
  {
    hide Step;
    var c := Here(st, regs);
    assert f.blocks[st.cur].instrs[|st.blocks[st.cur].instrs|] == i;
    FindsLabel(f.blocks, b);
    forall j: nat
      ensures Run(m, f, c, 1 + j) == Run(m, f, Config(b, 0, regs), j)
    {
    }
  }

  lemma FindsLabel(blocks: seq<Block>, b: nat)
    requires Distinct(blocks) && b < |blocks|
    ensures FindLabel(blocks, blocks[b].tag) == b
  {
  }

  // ----- source environment and registers -----

  /** Variables beyond `env` have not been written. */
  ghost predicate Holds(env: seq<Value>, slots: seq<Name>, regs: Regs) {
    forall i :: 0 <= i < |slots| ==>
                  if i < |env| then slots[i] in regs && regs[slots[i]] == env[i] else slots[i] !in regs
  }

  ghost predicate KeepsTemps(n: nat, a: Regs, b: Regs) {
    forall i: nat :: i <= n && Temp(i) in a ==> Temp(i) in b && b[Temp(i)] == a[Temp(i)]
  }

  lemma HoldsTemp(env: seq<Value>, slots: seq<Name>, n: nat, regs: Regs, i: nat, v: Value)
    requires Holds(env, slots, regs) && Slots(slots, n)
    ensures Holds(env, slots, regs[Temp(i) := v])
  {
  }

  lemma KeptTemp(n: nat, a: Regs, b: Regs, v: Name)
    requires KeepsTemps(n, a, b) && v.Temp? && v.id <= n && v in a
    ensures v in b && b[v] == a[v]
  {
  }

  lemma LogicTemp(e: Expr, st: Ctx)
    requires Ok(st) && e.ELogic?
    ensures var (r, v) := LowerExpr(e, st); v.Temp? && st.tempId < v.id <= r.tempId
  {
    LogicLowered(e, st);
    hide LowerExpr;
    LowerExprGrows(e.left, st);
    var (s1, l) := LowerExpr(e.left, st);
    OpenLogicGrows(e.isAnd, l, s1);
    var s2 := OpenLogic(e.isAnd, l, s1).0;
    LowerExprGrows(e.right, s2);
  }

  lemma BinaryTemp(e: Expr, st: Ctx)
    requires Ok(st) && e.EBin?
    ensures var (r, v) := LowerExpr(e, st); v.Temp? && st.tempId < v.id <= r.tempId
  {
    BinParts(e, Kinds(st.scope, st.types), [], [], st);
    hide LowerExpr;
    hide EvalLowered;
    LowerExprGrows(e.left, st);
    var (s1, l) := LowerExpr(e.left, st);
    LowerExprGrows(e.right, s1);
    var (s2, r) := LowerExpr(e.right, s1);
    EmitAllGrows(s2, Checks(e.op, l, r, Guess(e.left, s2) == TInt && Guess(e.right, s2) == TInt));
  }

  lemma {:induction false} ResultTemp(e: Expr, st: Ctx)
    requires Ok(st)
    ensures var (r, v) := LowerExpr(e, st); v.Temp? && st.tempId < v.id <= r.tempId
  {
    LowerExprGrows(e, st);
    match e {
      case ELogic(isAnd, left, right) => LogicTemp(e, st);
      case EBin(op, left, right) => BinaryTemp(e, st);
      case EUn(_, arg) => LowerExprGrows(arg, st);
      case ECond(cond, yes, no) =>
        LowerExprGrows(cond, st);
        var (s1, c) := LowerExpr(cond, st);
        LowerExprGrows(yes, s1);
        var (s2, a) := LowerExpr(yes, s1);
        LowerExprGrows(no, s2);
      case _ =>
    }
  }

  // ----- expressions -----

  /** A run of lowered code, from `st` to `r` with result register `v`, against an evaluation. */
  ghost predicate Follows(m: Module, f: Function, x: Evaluated, slots: seq<Name>,
                          st: Ctx, r: Ctx, v: Name, regs: Regs, k: nat, regs1: Regs) {
    match x
    case Val(w, env1) =>
      Leads(m, f, Here(st, regs), k, Here(r, regs1)) && Holds(env1, slots, regs1) &&
      KeepsTemps(st.tempId, regs, regs1) && v in regs1 && regs1[v] == w
    case Fault(t) => Ends(m, f, Here(st, regs), k, Trapped(t))
  }

  ghost predicate FollowsExpr(m: Module, f: Function, e: Expr, ks: Kinds, g: seq<Decl>, env: seq<Value>,
                              slots: seq<Name>, st: Ctx, regs: Regs, k: nat, regs1: Regs)
  {
    Follows(m, f, EvalLowered(e, ks, g, env), slots, st, LowerExpr(e, st).0, LowerExpr(e, st).1, regs, k, regs1)
  }

  /** Two runs in a row; the first result is still in its register. */
  lemma FollowsTwice(m: Module, f: Function, slots: seq<Name>,
                     x: Evaluated, st: Ctx, s1: Ctx, l: Name, regs: Regs, k1: nat, r1: Regs,
                     y: Evaluated, s2: Ctx, r: Name, k2: nat, r2: Regs)
    requires x.Val? && Follows(m, f, x, slots, st, s1, l, regs, k1, r1)
    requires Follows(m, f, y, slots, s1, s2, r, r1, k2, r2)
    requires l.Temp? && l.id <= s1.tempId && st.tempId <= s1.tempId
    ensures Follows(m, f, y, slots, st, s2, r, regs, k1 + k2, r2)
    ensures y.Val? ==> l in r2 && r2[l] == x.v
  {
    hide Run;
    hide Leads;
    hide Ends;
    match y
    case Val(_, _) => LeadsTrans(m, f, Here(st, regs), k1, Here(s1, r1), k2, Here(s2, r2));
    case Fault(t) => LeadsEnds(m, f, Here(st, regs), k1, Here(s1, r1), k2, Trapped(t));
  }

  /** A run followed by a single instruction that writes a fresh temporary. */
  lemma FollowsWrite(m: Module, f: Function, slots: seq<Name>, n: nat,
                     x: Evaluated, st: Ctx, s1: Ctx, v: Name, regs: Regs, k: nat, r1: Regs,
                     i: Instr, c: Computed)
    returns (r2: Regs)
    requires x.Val? && Follows(m, f, x, slots, st, s1, v, regs, k, r1) && Slots(slots, n)
    requires Ok(s1) && st.tempId <= s1.tempId
    requires Step(i, r1) == Write(Temp(s1.tempId + 1), c, r1)
    requires Within(Emit(NextTemp(s1).0, i), f)
    ensures Follows(m, f, match c case Good(w) => Val(w, x.env) case Bad(t) => Fault(t), slots, st,
                    Emit(NextTemp(s1).0, i), Temp(s1.tempId + 1), regs, k, r2)
  {
    hide Run;
    hide Leads;
    hide Ends;
    hide Step;
    hide Within;
    var s2 := NextTemp(s1).0;
    assert Here(s2, r1) == Here(s1, r1);
    TempGrows(s1, 1);
    match c
    case Good(w) =>
      r2 := r1[Temp(s1.tempId + 1) := w];
      SimEmit(m, f, Here(st, regs), k, s2, i, r1, r2);
    case Bad(t) =>
      r2 := r1;
      EmitStop(m, f, s2, i, r1, Trapped(t));
      LeadsEnds(m, f, Here(st, regs), k, Here(s1, r1), 0, Trapped(t));
  }

  lemma SimEmit(m: Module, f: Function, a: Config, k: nat, st: Ctx, i: Instr, regs: Regs, regs1: Regs)
    requires Leads(m, f, a, k, Here(st, regs))
    requires Ok(st) && Within(Emit(st, i), f) && Step(i, regs) == Next(regs1)
    ensures Leads(m, f, a, k, Here(Emit(st, i), regs1))
  {
    hide Run;
    hide Step;
    EmitStep(m, f, st, i, regs, regs1);
    LeadsTrans(m, f, a, k, Here(st, regs), 0, Here(Emit(st, i), regs1));
  }

  /** A check stops exactly where the source operator faults on its own account. */
  lemma ChecksAre(op: BinOp, l: Name, r: Name, intLike: bool, dst: Name, regs: Regs)
    requires l in regs && r in regs
    ensures var code := Checks(op, l, r, intLike);
            var o := Compute(op, intLike, regs[l], regs[r]);
            |code| <= 1 &&
            (code != [] ==> Step(code[0], regs) == Next(regs) ||
                            (o.Bad? && Step(code[0], regs) == Stop(Trapped(o.t)))) &&
            (code == [] || Step(code[0], regs) == Next(regs) ==> Step(Bin(dst, op, l, r), regs) == Write(dst, o, regs))
  {
  }

  /** The checks and the arithmetic instruction together do what the source operator does; without
      checks the bare instruction is left. */
  lemma SimBin(m: Module, f: Function, st: Ctx, op: BinOp, l: Name, r: Name, intLike: bool, regs: Regs)
    requires Ok(st) && l in regs && r in regs
    requires Within(EmitBin(st, op, l, r, intLike).0, f)
    ensures var (x, dst) := EmitBin(st, op, l, r, intLike);
            match Compute(op, intLike, regs[l], regs[r])
            case Good(w) => Leads(m, f, Here(st, regs), 0, Here(x, regs[dst := w]))
            case Bad(t) => Ends(m, f, Here(st, regs), 0, Trapped(t))
  {
    hide Run;
    hide Leads;
    hide Grows;
    hide Step;
    hide Compute;
    hide Checks;
    hide Within;
    var code := Checks(op, l, r, intLike);
    var x := EmitBin(st, op, l, r, intLike).0;
    LeadsSelf(m, f, Here(st, regs));
    EmitAllGrows(st, code);
    var st1 := EmitAll(st, code);
    var dst := Temp(st1.tempId + 1);
    ChecksAre(op, l, r, intLike, dst, regs);
    EmitTempGrows(st1, Bin(dst, op, l, r));
    WithinBefore(st1, x, f);
    if code != [] {
      assert code[1..] == [] && st1 == Emit(st, code[0]);
      match Step(code[0], regs)
      case Next(_) => SimEmit(m, f, Here(st, regs), 0, st, code[0], regs, regs);
      case Stop(o) => EmitStop(m, f, st, code[0], regs, o); return;
    }
    var st2 := NextTemp(st1).0;
    assert Here(st2, regs) == Here(st1, regs);
    match Compute(op, intLike, regs[l], regs[r])
    case Good(w) => SimEmit(m, f, Here(st, regs), 0, st2, Bin(dst, op, l, r), regs, regs[dst := w]);
    case Bad(t) =>
      EmitStop(m, f, st2, Bin(dst, op, l, r), regs, Trapped(t));
      LeadsEnds(m, f, Here(st, regs), 0, Here(st2, regs), 0, Trapped(t));
  }

  lemma {:induction false} SimLowered(m: Module, f: Function, e: Expr, ks: Kinds, g: seq<Decl>, env: seq<Value>,
                                      slots: seq<Name>, st: Ctx, regs: Regs)
    returns (k: nat, regs1: Regs)
    requires Legal(e, g)
    requires Ok(st) && ks == Kinds(st.scope, st.types) && Within(LowerExpr(e, st).0, f)
    requires BindsFor(e, st, g, slots) && Holds(env, slots, regs)
    ensures FollowsExpr(m, f, e, ks, g, env, slots, st, regs, k, regs1)
    decreases e, 1, 0
  {
    hide *;
    match e {
      case ELit(_) => k, regs1 := SimLeaf(m, f, e, ks, g, env, slots, st, regs);
      case EBool(_) => k, regs1 := SimLeaf(m, f, e, ks, g, env, slots, st, regs);
      case EVar(_) => k, regs1 := SimLeaf(m, f, e, ks, g, env, slots, st, regs);
      case EInc(_, _, _) => k, regs1 := SimInc(m, f, e, ks, g, env, slots, st, regs);
      case EUn(_, _) => k, regs1 := SimUn(m, f, e, ks, g, env, slots, st, regs);
      case EBin(_, _, _) => k, regs1 := SimBinary(m, f, e, ks, g, env, slots, st, regs);
      case ELogic(_, _, _) => k, regs1 := SimLogic(m, f, e, ks, g, env, slots, st, regs);
      case ECond(_, _, _) => k, regs1 := SimCond(m, f, e, ks, g, env, slots, st, regs);
    }
  }

  lemma SimLeaf(m: Module, f: Function, e: Expr, ks: Kinds, g: seq<Decl>, env: seq<Value>, slots: seq<Name>, st: Ctx,
                regs: Regs)
    returns (k: nat, regs1: Regs)
    requires Legal(e, g) && (e.ELit? || e.EBool? || e.EVar?)
    requires Ok(st) && ks == Kinds(st.scope, st.types) && Within(LowerExpr(e, st).0, f)
    requires BindsFor(e, st, g, slots) && Holds(env, slots, regs)
    ensures FollowsExpr(m, f, e, ks, g, env, slots, st, regs, k, regs1)
  {
    hide Run;
    hide Leads;
    hide Ends;
    var (st1, dst) := NextTemp(st);
    var i := if e.ELit? then Const(dst, IntText(e.n)) else if e.EBool? then Const(dst, RawBool(e.b))
    else LoadVar(dst, Resolve(st, e.x));
    k, regs1 := 0, regs;
    LeadsSelf(m, f, Here(st1, regs));
    if e.EVar? {
      assert NameAgrees(st, g, slots, e.x);
      if Read(e.x, g, env).None? {
        EmitStop(m, f, st1, i, regs, Trapped(Undefined));
        return;
      }
    }
    regs1 := regs[dst := EvalLowered(e, ks, g, env).v];
    SimEmit(m, f, Here(st1, regs), 0, st1, i, regs, regs1);
  }

  lemma SlotsOf(e: Expr, st: Ctx, g: seq<Decl>, slots: seq<Name>)
    requires BindsFor(e, st, g, slots)
    ensures Slots(slots, st.varId) && |slots| == |g|
  {
  }

  lemma HoldsUpdate(env: seq<Value>, slots: seq<Name>, n: nat, regs: Regs, at: nat, w: Value)
    requires Holds(env, slots, regs) && Slots(slots, n) && at < |slots| && at < |env|
    ensures Holds(env[at := w], slots, regs[slots[at] := w])
  {
  }

  ghost function EmitFour(st: Ctx, code: seq<Instr>): Ctx
    requires |code| == 4
  {
    Emit(Emit(Emit(Emit(st, code[0]), code[1]), code[2]), code[3])
  }

  /** The four instructions of `x++` and its three siblings. */
  lemma IncRun(m: Module, f: Function, op: BinOp, name: Name, was: Value, st: Ctx, regs: Regs) returns (regs1: Regs)
    requires Ok(st) && name in regs && regs[name] == was && !name.Temp?
    requires var cur, one, next := Temp(st.tempId + 1), Temp(st.tempId + 2), Temp(st.tempId + 3);
             var code := [LoadVar(cur, name), Const(one, IntText(1)), Bin(next, op, cur, one), StoreVar(name, next)];
             Within(EmitFour(st.(tempId := st.tempId + 3), code), f)
    ensures var cur, one, next := Temp(st.tempId + 1), Temp(st.tempId + 2), Temp(st.tempId + 3);
            var code := [LoadVar(cur, name), Const(one, IntText(1)), Bin(next, op, cur, one), StoreVar(name, next)];
            var r := EmitFour(st.(tempId := st.tempId + 3), code);
            match RawBin(op, was, VInt(1))
            case Good(w) => regs1 == regs[cur := was][one := VInt(1)][next := w][name := w] &&
                            Leads(m, f, Here(st, regs), 0, Here(r, regs1))
            case Bad(t) => Ends(m, f, Here(st, regs), 0, Trapped(t))
  {
    hide Run;
    hide Leads;
    hide Ends;
    hide Grows;
    hide Within;
    hide Ok;
    hide Emit;
    hide RawBin;
    var cur, one, next := Temp(st.tempId + 1), Temp(st.tempId + 2), Temp(st.tempId + 3);
    var code := [LoadVar(cur, name), Const(one, IntText(1)), Bin(next, op, cur, one), StoreVar(name, next)];
    var s0 := st.(tempId := st.tempId + 3);
    TempGrows(st, 3);
    var s1, s2, s3, s4 := Emit(s0, code[0]), Emit(Emit(s0, code[0]), code[1]),
                          Emit(Emit(Emit(s0, code[0]), code[1]), code[2]), EmitFour(s0, code);
    EmitGrows(s0, code[0]);
    EmitGrows(s1, code[1]);
    EmitGrows(s2, code[2]);
    EmitGrows(s3, code[3]);
    WithinBefore(s3, s4, f);
    WithinBefore(s2, s3, f);
    WithinBefore(s1, s2, f);
    var a := Here(st, regs);
    LeadsSelf(m, f, a);
    assert Here(s0, regs) == a;
    var r1 := regs[cur := was];
    SimEmit(m, f, a, 0, s0, code[0], regs, r1);
    var r2 := r1[one := VInt(1)];
    SimEmit(m, f, a, 0, s1, code[1], r1, r2);
    match RawBin(op, was, VInt(1)) {
      case Good(w) =>
        var r3 := r2[next := w];
        SimEmit(m, f, a, 0, s2, code[2], r2, r3);
        regs1 := r3[name := w];
        SimEmit(m, f, a, 0, s3, code[3], r3, regs1);
      case Bad(t) =>
        regs1 := regs;
        EmitStop(m, f, s2, code[2], r2, Trapped(t));
        LeadsEnds(m, f, a, 0, Here(s2, r2), 0, Trapped(t));
    }
  }

  /** `x++` on a variable without a value. */
  lemma IncUnset(m: Module, f: Function, e: Expr, name: Name, st: Ctx, regs: Regs)
    requires e.EInc? && Ok(st) && Within(LowerExpr(e, st).0, f) && Resolve(st, e.x) == name && name !in regs
    ensures Ends(m, f, Here(st, regs), 0, Trapped(Undefined))
  {
    hide Run;
    hide Within;
    hide Ok;
    hide Emit;
    hide Grows;
    var cur, one, next := Temp(st.tempId + 1), Temp(st.tempId + 2), Temp(st.tempId + 3);
    var s0 := st.(tempId := st.tempId + 3);
    var i1, i2, i3, i4 := LoadVar(cur, name), Const(one, IntText(1)), Bin(next, if e.up then Add else Sub, cur, one),
                          StoreVar(name, next);
    var s1 := Emit(s0, i1);
    var s2 := Emit(s1, i2);
    var s3 := Emit(s2, i3);
    assert LowerExpr(e, st).0 == Emit(s3, i4);
    TempGrows(st, 3);
    EmitGrows(s0, i1);
    EmitGrows(s1, i2);
    EmitGrows(s2, i3);
    EmitGrows(s3, i4);
    WithinBefore(s3, Emit(s3, i4), f);
    WithinBefore(s2, s3, f);
    WithinBefore(s1, s2, f);
    assert Here(s0, regs) == Here(st, regs);
    EmitStop(m, f, s0, i1, regs, Trapped(Undefined));
  }

  lemma SimInc(m: Module, f: Function, e: Expr, ks: Kinds, g: seq<Decl>, env: seq<Value>, slots: seq<Name>, st: Ctx,
               regs: Regs)
    returns (k: nat, regs1: Regs)
    requires Legal(e, g) && e.EInc?
    requires Ok(st) && ks == Kinds(st.scope, st.types) && Within(LowerExpr(e, st).0, f)
    requires BindsFor(e, st, g, slots) && Holds(env, slots, regs)
    ensures FollowsExpr(m, f, e, ks, g, env, slots, st, regs, k, regs1)
  {
    hide Run;
    hide Leads;
    hide Within;
    hide Ok;
    hide Emit;
    k := 0;
    assert NameAgrees(st, g, slots, e.x);
    var at := Find(g, e.x).value;
    if at >= |env| {
      IncUnset(m, f, e, slots[at], st, regs);
      regs1 := regs;
      return;
    }
    var cur, one, next := Temp(st.tempId + 1), Temp(st.tempId + 2), Temp(st.tempId + 3);
    var op := if e.up then Add else Sub;
    var code := [LoadVar(cur, slots[at]), Const(one, IntText(1)), Bin(next, op, cur, one), StoreVar(slots[at], next)];
    assert LowerExpr(e, st) == (EmitFour(st.(tempId := st.tempId + 3), code), if e.prefix then next else cur);
    regs1 := IncRun(m, f, op, slots[at], env[at], st, regs);
    if RawBin(op, env[at], VInt(1)).Good? {
      var w := RawBin(op, env[at], VInt(1)).v;
      HoldsTemp(env, slots, st.varId, regs, st.tempId + 1, env[at]);
      HoldsTemp(env, slots, st.varId, regs[cur := env[at]], st.tempId + 2, VInt(1));
      HoldsTemp(env, slots, st.varId, regs[cur := env[at]][one := VInt(1)], st.tempId + 3, w);
      HoldsUpdate(env, slots, st.varId, regs[cur := env[at]][one := VInt(1)][next := w], at, w);
    }
  }

  /** The facts about lowering one subexpression that every case uses. */
  lemma SubFacts(e: Expr, sub: Expr, st0: Ctx, st: Ctx, g: seq<Decl>, slots: seq<Name>)
    requires Ok(st) && BindsFor(e, st0, g, slots) && st.scope == st0.scope && st.types == st0.types &&
             st0.varId <= st.varId
    requires forall x: string :: Mentions(sub, x) ==> Mentions(e, x)
    ensures var (r, v) := LowerExpr(sub, st);
            Ok(r) && Grows(st, r) && r.scope == st.scope && r.types == st.types && st.varId <= r.varId &&
            v.Temp? && st.tempId < v.id <= r.tempId && |st.blocks| <= |r.blocks| && r.cur < |r.blocks|
    ensures BindsFor(sub, st, g, slots) && Slots(slots, st0.varId) && |slots| == |g|
  {
    hide LowerExpr;
    LowerExprGrows(sub, st);
    ResultTemp(sub, st);
    BindsSub(e, sub, st0, g, slots);
    SameScope(sub, st0, st, g, slots);
  }

  /** The literal whose digits alone would not fit. */
  lemma SimLeast(m: Module, f: Function, e: Expr, ks: Kinds, g: seq<Decl>, env: seq<Value>, slots: seq<Name>, st: Ctx,
                 regs: Regs)
    returns (regs1: Regs)
    requires e == EUn(Neg, ELit(-INT_MIN))
    requires Ok(st) && ks == Kinds(st.scope, st.types) && Within(LowerExpr(e, st).0, f)
    requires BindsFor(e, st, g, slots) && Holds(env, slots, regs)
    ensures FollowsExpr(m, f, e, ks, g, env, slots, st, regs, 0, regs1)
  {
    hide Run;
    hide Leads;
    hide Grows;
    hide Within;
    hide Ok;
    hide BindsFor;
    hide RawInt;
    var (st1, dst) := NextTemp(st);
    regs1 := regs[dst := VInt(INT_MIN)];
    assert EvalLowered(e.arg, ks, g, env) == Val(VInt(-INT_MIN), env);
    SlotsOf(e, st, g, slots);
    LeadsSelf(m, f, Here(st1, regs));
    TempGrows(st, 1);
    SimEmit(m, f, Here(st1, regs), 0, st1, Const(dst, IntText(INT_MIN)), regs, regs1);
  }

  lemma SimUn(m: Module, f: Function, e: Expr, ks: Kinds, g: seq<Decl>, env: seq<Value>, slots: seq<Name>, st: Ctx,
              regs: Regs)
    returns (k: nat, regs1: Regs)
    requires Legal(e, g) && e.EUn?
    requires Ok(st) && ks == Kinds(st.scope, st.types) && Within(LowerExpr(e, st).0, f)
    requires BindsFor(e, st, g, slots) && Holds(env, slots, regs)
    ensures FollowsExpr(m, f, e, ks, g, env, slots, st, regs, k, regs1)
    decreases e, 0, 1
  {
    hide Run;
    hide Leads;
    hide Grows;
    hide Within;
    hide Ok;
    hide BindsFor;
    hide RawInt;
    k, regs1 := 0, regs;
    if e.unop == Neg && e.arg == ELit(-INT_MIN) {
      regs1 := SimLeast(m, f, e, ks, g, env, slots, st, regs);
      return;
    }
    var (s1, v) := LowerExpr(e.arg, st);
    var i := Unary(Temp(s1.tempId + 1), e.unop, v);
    SubFacts(e, e.arg, st, st, g, slots);
    EmitTempGrows(s1, i);
    WithinBefore(s1, LowerExpr(e, st).0, f);
    k, regs1 := SimLowered(m, f, e.arg, ks, g, env, slots, st, regs);
    var x := EvalLowered(e.arg, ks, g, env);
    if x.Val? {
      regs1 := FollowsWrite(m, f, slots, st.varId, x, st, s1, v, regs, k, regs1, i, RawUn(e.unop, x.v));
    }
  }

  lemma BinTemp(st: Ctx, op: BinOp, l: Name, r: Name, intLike: bool)
    requires Ok(st)
    ensures EmitBin(st, op, l, r, intLike).1 == Temp(st.tempId + 1)
  {
    EmitAllGrows(st, Checks(op, l, r, intLike));
  }

  /** A run that ends with both operands in registers, followed by the operator. */
  lemma FollowsBin(m: Module, f: Function, slots: seq<Name>, n: nat, a: Value, b: Value, y: Evaluated, st: Ctx, s2: Ctx,
                   v: Name, op: BinOp, l: Name, r: Name, intLike: bool, regs: Regs, k: nat, r2: Regs)
    returns (regs1: Regs)
    requires y.Val? && Follows(m, f, y, slots, st, s2, v, regs, k, r2)
    requires l in r2 && r2[l] == a && r in r2 && r2[r] == b
    requires Slots(slots, n) && Ok(s2) && st.tempId <= s2.tempId
    requires Within(EmitBin(s2, op, l, r, intLike).0, f)
    ensures var (x, dst) := EmitBin(s2, op, l, r, intLike);
            Follows(m, f, match Compute(op, intLike, a, b) case Good(w) => Val(w, y.env) case Bad(t) =>
                            Fault(t), slots, st, x, dst, regs, k, regs1)
  {
    hide Run;
    hide Leads;
    hide Ends;
    hide Compute;
    hide EmitBin;
    hide Within;
    regs1 := r2;
    SimBin(m, f, s2, op, l, r, intLike, r2);
    BinTemp(s2, op, l, r, intLike);
    var (s3, dst) := EmitBin(s2, op, l, r, intLike);
    match Compute(op, intLike, a, b)
    case Good(w) =>
      regs1 := r2[dst := w];
      LeadsTrans(m, f, Here(st, regs), k, Here(s2, r2), 0, Here(s3, regs1));
    case Bad(t) => LeadsEnds(m, f, Here(st, regs), k, Here(s2, r2), 0, Trapped(t));
  }

  lemma BinParts(e: Expr, ks: Kinds, g: seq<Decl>, env: seq<Value>, st: Ctx)
    requires e.EBin?
    ensures Legal(e, g) ==> Legal(e.left, g) && Legal(e.right, g)
    ensures forall x: string :: Mentions(e.left, x) || Mentions(e.right, x) ==> Mentions(e, x)
    ensures var (s1, l) := LowerExpr(e.left, st);
            var (s2, r) := LowerExpr(e.right, s1);
            LowerExpr(e, st) == EmitBin(s2, e.op, l, r, Guess(e.left, s2) == TInt && Guess(e.right, s2) == TInt)
    ensures match EvalLowered(e.left, ks, g, env)
            case Fault(t) => EvalLowered(e, ks, g, env) == Fault(t)
            case Val(a, env1) =>
              (match EvalLowered(e.right, ks, g, env1)
               case Fault(t) => EvalLowered(e, ks, g, env) == Fault(t)
               case Val(b, env2) =>
                 EvalLowered(e, ks, g, env) ==
                 match Compute(e.op, IntLike(e.left, e.right, ks), a, b) case Good(w) => Val(w, env2) case Bad(t) =>
                   Fault(t))
  {
    hide Compute;
    hide EmitBin;
    hide IntLike;
  }

  ghost function LoweredTwo(a: Expr, b: Expr, ks: Kinds, g: seq<Decl>, env: seq<Value>): (r: Evaluated)
    ensures r.Val? ==> |r.env| == |env|
  {
    var x := EvalLowered(a, ks, g, env);
    if x.Val? then EvalLowered(b, ks, g, x.env) else x
  }

  /** Two subexpressions in a row. */
  lemma SimTwo(m: Module, f: Function, e: Expr, a: Expr, b: Expr, ks: Kinds, g: seq<Decl>, env: seq<Value>,
               slots: seq<Name>, st: Ctx, regs: Regs)
    returns (k: nat, regs1: Regs)
    requires a < e && b < e && Legal(a, g) && Legal(b, g) && ks == Kinds(st.scope, st.types)
    requires Ok(st) && BindsFor(e, st, g, slots)
    requires forall x: string :: Mentions(a, x) || Mentions(b, x) ==> Mentions(e, x)
    requires Holds(env, slots, regs)
    requires var (s1, l) := LowerExpr(a, st);
             Within(LowerExpr(b, s1).0, f)
    ensures var (s1, l) := LowerExpr(a, st);
            var (s2, r) := LowerExpr(b, s1);
            Follows(m, f, LoweredTwo(a, b, ks, g, env), slots, st, s2, r, regs, k, regs1) &&
            (LoweredTwo(a, b, ks, g, env).Val? ==> l in regs1 && regs1[l] == EvalLowered(a, ks, g, env).v)
    decreases e, 0, 0
  {
    hide *;
    TwoIs(a, b, ks, g, env);
    var (s1, l) := LowerExpr(a, st);
    var (s2, r) := LowerExpr(b, s1);
    SubFacts(e, a, st, st, g, slots);
    SubFacts(e, b, st, s1, g, slots);
    WithinBefore(s1, s2, f);
    k, regs1 := SimLowered(m, f, a, ks, g, env, slots, st, regs);
    FollowsOf(m, f, a, ks, g, env, slots, st, regs, k, regs1);
    var x := EvalLowered(a, ks, g, env);
    if x.Val? {
      HoldsOf(m, f, x, slots, st, s1, l, regs, k, regs1);
      var k2, r2 := SimLowered(m, f, b, ks, g, x.env, slots, s1, regs1);
      AfterFirst(m, f, b, ks, g, slots, x, st, s1, l, regs, k, regs1, k2, r2);
      k, regs1 := k + k2, r2;
    } else {
      EndsAnyhow(m, f, x, slots, st, s1, l, s2, r, regs, k, regs1);
    }
  }

  lemma AfterFirst(m: Module, f: Function, b: Expr, ks: Kinds, g: seq<Decl>, slots: seq<Name>,
                   x: Evaluated, st: Ctx, s1: Ctx, l: Name, regs: Regs, k1: nat, r1: Regs, k2: nat, r2: Regs)
    requires x.Val? && Follows(m, f, x, slots, st, s1, l, regs, k1, r1)
    requires FollowsExpr(m, f, b, ks, g, x.env, slots, s1, r1, k2, r2)
    requires l.Temp? && l.id <= s1.tempId && st.tempId <= s1.tempId
    ensures var (s2, r) := LowerExpr(b, s1);
            var y := EvalLowered(b, ks, g, x.env);
            Follows(m, f, y, slots, st, s2, r, regs, k1 + k2, r2) && (y.Val? ==> l in r2 && r2[l] == x.v)
  {
    hide *;
    var (s2, r) := LowerExpr(b, s1);
    FollowsOf(m, f, b, ks, g, x.env, slots, s1, r1, k2, r2);
    FollowsTwice(m, f, slots, x, st, s1, l, regs, k1, r1, EvalLowered(b, ks, g, x.env), s2, r, k2, r2);
  }

  lemma TwoIs(a: Expr, b: Expr, ks: Kinds, g: seq<Decl>, env: seq<Value>)
    ensures var x := EvalLowered(a, ks, g, env);
            LoweredTwo(a, b, ks, g, env) == if x.Val? then EvalLowered(b, ks, g, x.env) else x
  {
    hide EvalLowered;
  }

  lemma SimBinary(m: Module, f: Function, e: Expr, ks: Kinds, g: seq<Decl>, env: seq<Value>, slots: seq<Name>, st: Ctx,
                  regs: Regs)
    returns (k: nat, regs1: Regs)
    requires Legal(e, g) && e.EBin?
    requires Ok(st) && ks == Kinds(st.scope, st.types) && Within(LowerExpr(e, st).0, f)
    requires BindsFor(e, st, g, slots) && Holds(env, slots, regs)
    ensures FollowsExpr(m, f, e, ks, g, env, slots, st, regs, k, regs1)
    decreases e, 0, 1
  {
    hide *;
    BinParts(e, ks, g, env, st);
    TwoIs(e.left, e.right, ks, g, env);
    var (s1, l) := LowerExpr(e.left, st);
    var (s2, r) := LowerExpr(e.right, s1);
    var intLike := Guess(e.left, s2) == TInt && Guess(e.right, s2) == TInt;
    BinFacts(e, ks, st, g, slots, f);
    k, regs1 := SimTwo(m, f, e, e.left, e.right, ks, g, env, slots, st, regs);
    var y := LoweredTwo(e.left, e.right, ks, g, env);
    if y.Val? {
      HoldsOf(m, f, y, slots, st, s2, r, regs, k, regs1);
      regs1 := FollowsBin(m, f, slots, st.varId, EvalLowered(e.left, ks, g, env).v, y.v, y, st, s2, r, e.op, l, r,
                          intLike, regs, k, regs1);
    } else {
      EndsAnyhow(m, f, y, slots, st, s2, r, LowerExpr(e, st).0, LowerExpr(e, st).1, regs, k, regs1);
    }
    AsExpr(m, f, e, ks, g, env, slots, st, regs, k, regs1);
  }

  lemma BinFacts(e: Expr, ks: Kinds, st: Ctx, g: seq<Decl>, slots: seq<Name>, f: Function)
    requires Legal(e, g) && e.EBin? && Ok(st) && Within(LowerExpr(e, st).0, f) && BindsFor(e, st, g, slots)
    requires ks == Kinds(st.scope, st.types)
    ensures var (s1, l) := LowerExpr(e.left, st);
            var (s2, r) := LowerExpr(e.right, s1);
            Within(s2, f) && Ok(s2) && st.tempId <= s2.tempId && Slots(slots, st.varId) &&
            ((Guess(e.left, s2) == TInt && Guess(e.right, s2) == TInt) <==> IntLike(e.left, e.right, ks))
  {
    BinParts(e, ks, g, [], st);
    BothGuessed(e.left, e.right, ks, LowerExpr(e.right, LowerExpr(e.left, st).0).0);
    hide *;
    var (s1, l) := LowerExpr(e.left, st);
    var (s2, r) := LowerExpr(e.right, s1);
    var intLike := Guess(e.left, s2) == TInt && Guess(e.right, s2) == TInt;
    SubFacts(e, e.left, st, st, g, slots);
    SubFacts(e, e.right, st, s1, g, slots);
    EmitBinGrows(s2, e.op, l, r, intLike);
    WithinBefore(s2, LowerExpr(e, st).0, f);
  }

  lemma BothGuessed(left: Expr, right: Expr, ks: Kinds, st: Ctx)
    ensures ks == Kinds(st.scope, st.types) ==>
              ((Guess(left, st) == TInt && Guess(right, st) == TInt) <==> IntLike(left, right, ks))
  {
    GuessKinds(left, st);
    GuessKinds(right, st);
  }

  lemma FollowsOf(m: Module, f: Function, e: Expr, ks: Kinds, g: seq<Decl>, env: seq<Value>, slots: seq<Name>, st: Ctx,
                  regs: Regs, k: nat, regs1: Regs)
    requires FollowsExpr(m, f, e, ks, g, env, slots, st, regs, k, regs1)
    ensures Follows(m, f, EvalLowered(e, ks, g, env), slots, st, LowerExpr(e, st).0, LowerExpr(e, st).1, regs, k, regs1)
  {
    hide Follows;
    hide EvalLowered;
    hide LowerExpr;
  }

  lemma AsExpr(m: Module, f: Function, e: Expr, ks: Kinds, g: seq<Decl>, env: seq<Value>, slots: seq<Name>, st: Ctx,
               regs: Regs, k: nat, regs1: Regs)
    requires Follows(m, f, EvalLowered(e, ks, g, env), slots, st, LowerExpr(e, st).0, LowerExpr(e, st).1, regs, k,
                     regs1)
    ensures FollowsExpr(m, f, e, ks, g, env, slots, st, regs, k, regs1)
  {
    hide Follows;
    hide EvalLowered;
    hide LowerExpr;
  }

  lemma HoldsOf(m: Module, f: Function, x: Evaluated, slots: seq<Name>, st: Ctx, r: Ctx, v: Name, regs: Regs, k: nat,
                regs1: Regs)
    requires x.Val? && Follows(m, f, x, slots, st, r, v, regs, k, regs1)
    ensures Holds(x.env, slots, regs1) && v in regs1 && regs1[v] == x.v
    ensures Leads(m, f, Here(st, regs), k, Here(r, regs1)) && KeepsTemps(st.tempId, regs, regs1)
  {
    hide Leads;
  }

  /** A run that ended in a trap ended whatever code follows. */
  lemma EndsAnyhow(m: Module, f: Function, x: Evaluated, slots: seq<Name>, st: Ctx, r: Ctx, v: Name, r': Ctx, v': Name,
                   regs: Regs, k: nat, regs1: Regs)
    requires x.Fault? && Follows(m, f, x, slots, st, r, v, regs, k, regs1)
    ensures Follows(m, f, x, slots, st, r', v', regs, k, regs1)
  {
  }

  lemma CondParts(e: Expr, st: Ctx)
    requires e.ECond?
    ensures forall g :: Legal(e, g) ==> Legal(e.cond, g) && Legal(e.yes, g) && Legal(e.no, g)
    ensures forall x: string :: Mentions(e.cond, x) || Mentions(e.yes, x) || Mentions(e.no, x) ==> Mentions(e, x)
    ensures var (s1, c) := LowerExpr(e.cond, st);
            var (s2, y) := LowerExpr(e.yes, s1);
            var (s3, n) := LowerExpr(e.no, s2);
            LowerExpr(e, st) == (Emit(NextTemp(s3).0, Select(Temp(s3.tempId + 1), c, y, n)), Temp(s3.tempId + 1))
  {
    hide Emit;
  }

  lemma SelectStep(dst: Name, c: Name, y: Name, n: Name, regs: Regs)
    requires c in regs && y in regs && n in regs
    ensures Step(Select(dst, c, y, n), regs) ==
            Write(dst, if regs[c].VBool? then Good(if regs[c].b then regs[y] else regs[n]) else Bad(TypeError), regs)
  {
  }

  /** Both arms run before one result is selected. */
  ghost function LoweredArms(e: Expr, ks: Kinds, g: seq<Decl>, c: Value, env: seq<Value>): (r: Evaluated)
    requires e.ECond?
    ensures r.Val? ==> |r.env| == |env|
  {
    var z := LoweredTwo(e.yes, e.no, ks, g, env);
    if z.Fault? then z
    else if c.VInt? then Fault(TypeError)
    else Val(if c.b then EvalLowered(e.yes, ks, g, env).v else z.v, z.env)
  }

  lemma CondIs(e: Expr, ks: Kinds, g: seq<Decl>, env: seq<Value>)
    requires e.ECond?
    ensures var x := EvalLowered(e.cond, ks, g, env);
            EvalLowered(e, ks, g, env) == if x.Fault? then x else LoweredArms(e, ks, g, x.v, x.env)
  {
  }

  /** For all arms, also those that trap or change variables. */
  lemma SimCond(m: Module, f: Function, e: Expr, ks: Kinds, g: seq<Decl>, env: seq<Value>, slots: seq<Name>, st: Ctx,
                regs: Regs)
    returns (k: nat, regs1: Regs)
    requires Legal(e, g) && e.ECond?
    requires Ok(st) && ks == Kinds(st.scope, st.types) && Within(LowerExpr(e, st).0, f)
    requires BindsFor(e, st, g, slots) && Holds(env, slots, regs)
    ensures FollowsExpr(m, f, e, ks, g, env, slots, st, regs, k, regs1)
    decreases e, 0, 2
  {
    hide *;
    CondParts(e, st);
    CondIs(e, ks, g, env);
    var (s1, c) := LowerExpr(e.cond, st);
    var (s2, y) := LowerExpr(e.yes, s1);
    var (s3, n) := LowerExpr(e.no, s2);
    var i := Select(Temp(s3.tempId + 1), c, y, n);
    SubFacts(e, e.cond, st, st, g, slots);
    SubFacts(e, e.yes, st, s1, g, slots);
    SubFacts(e, e.no, st, s2, g, slots);
    EmitTempGrows(s3, i);
    WithinBefore(s3, LowerExpr(e, st).0, f);
    WithinBefore(s2, s3, f);
    WithinBefore(s1, s2, f);
    k, regs1 := SimLowered(m, f, e.cond, ks, g, env, slots, st, regs);
    FollowsOf(m, f, e.cond, ks, g, env, slots, st, regs, k, regs1);
    var x := EvalLowered(e.cond, ks, g, env);
    if x.Fault? {
      EndsAnyhow(m, f, x, slots, st, s1, c, LowerExpr(e, st).0, LowerExpr(e, st).1, regs, k, regs1);
    } else {
      k, regs1 := SimArms(m, f, e, ks, g, x, slots, st, regs, k, regs1);
    }
    AsExpr(m, f, e, ks, g, env, slots, st, regs, k, regs1);
  }

  lemma ArmsAre(e: Expr, ks: Kinds, g: seq<Decl>, c: Value, env: seq<Value>)
    requires e.ECond?
    ensures var z := LoweredTwo(e.yes, e.no, ks, g, env);
            LoweredArms(e, ks, g, c, env) ==
            if z.Fault? then z else if c.VInt? then Fault(TypeError)
            else Val(if c.b then EvalLowered(e.yes, ks, g, env).v else z.v, z.env)
    ensures LoweredTwo(e.yes, e.no, ks, g, env).Val? ==> EvalLowered(e.yes, ks, g, env).Val?
  {
    hide EvalLowered;
  }

  /** Both arms and the `select`, once the condition has been evaluated. */
  lemma SimArms(m: Module, f: Function, e: Expr, ks: Kinds, g: seq<Decl>, x: Evaluated, slots: seq<Name>, st: Ctx,
                regs: Regs, k1: nat, r1: Regs)
    returns (k: nat, regs1: Regs)
    requires e.ECond? && Legal(e.yes, g) && Legal(e.no, g) && ks == Kinds(st.scope, st.types)
    requires x.Val? && Ok(st) && BindsFor(e, st, g, slots)
    requires var (s1, c) := LowerExpr(e.cond, st);
             var (s2, y) := LowerExpr(e.yes, s1);
             var (s3, n) := LowerExpr(e.no, s2);
             Follows(m, f, x, slots, st, s1, c, regs, k1, r1) && Within(s3, f) &&
             Within(Emit(NextTemp(s3).0, Select(Temp(s3.tempId + 1), c, y, n)), f)
    requires forall x: string :: Mentions(e.cond, x) || Mentions(e.yes, x) || Mentions(e.no, x) ==> Mentions(e, x)
    ensures var (s1, c) := LowerExpr(e.cond, st);
            var (s2, y) := LowerExpr(e.yes, s1);
            var (s3, n) := LowerExpr(e.no, s2);
            Follows(m, f, LoweredArms(e, ks, g, x.v, x.env),
                    slots, st, Emit(NextTemp(s3).0, Select(Temp(s3.tempId + 1), c, y, n)), Temp(s3.tempId + 1), regs, k,
                    regs1)
    decreases e, 0, 1
  {
    hide *;
    var (s1, c) := LowerExpr(e.cond, st);
    var (s2, y) := LowerExpr(e.yes, s1);
    var (s3, n) := LowerExpr(e.no, s2);
    var i := Select(Temp(s3.tempId + 1), c, y, n);
    SubFacts(e, e.cond, st, st, g, slots);
    SubFacts(e, e.yes, st, s1, g, slots);
    SubFacts(e, e.no, st, s2, g, slots);
    ArmsAre(e, ks, g, x.v, x.env);
    HoldsOf(m, f, x, slots, st, s1, c, regs, k1, r1);
    SameScope(e, st, s1, g, slots);
    var k2, r2 := SimTwo(m, f, e, e.yes, e.no, ks, g, x.env, slots, s1, r1);
    var xn := LoweredTwo(e.yes, e.no, ks, g, x.env);
    FollowsTwice(m, f, slots, x, st, s1, c, regs, k1, r1, xn, s3, n, k2, r2);
    k, regs1 := k1 + k2, r2;
    if xn.Fault? {
      EndsAnyhow(m, f, xn, slots, st, s3, n, Emit(NextTemp(s3).0, i), Temp(s3.tempId + 1), regs, k, r2);
    } else {
      HoldsOf(m, f, xn, slots, s1, s3, n, r1, k2, r2);
      SelectStep(Temp(s3.tempId + 1), c, y, n, r2);
      regs1 := FollowsWrite(m, f, slots, st.varId, xn, st, s3, n, regs, k, r2, i,
                            if x.v.VBool? then Good(if x.v.b then r2[y] else r2[n]) else Bad(TypeError));
    }
  }

  // ----- `&&` and `||` -----

  ghost predicate Instruction(f: Function, b: nat, p: nat, i: Instr) {
    b < |f.blocks| && p < |f.blocks[b].instrs| && f.blocks[b].instrs[p] == i
  }

  ghost predicate IsBlock(f: Function, b: nat, l: Label) {
    Distinct(f.blocks) && b < |f.blocks| && f.blocks[b].tag == l
  }

  lemma JumpRun(m: Module, f: Function, b: nat, p: nat, i: Instr, regs: Regs, l: Label, to: nat)
    requires Instruction(f, b, p, i) && Step(i, regs) == Goto(l) && IsBlock(f, to, l)
    ensures Leads(m, f, Config(b, p, regs), 1, Config(to, 0, regs))
  {
    hide Step;
    FindsLabel(f.blocks, to);
    forall j: nat
      ensures Run(m, f, Config(b, p, regs), 1 + j) == Run(m, f, Config(to, 0, regs), j)
    {
    }
  }

  /** One instruction and then a jump. */
  lemma Hop(m: Module, f: Function, b: nat, p: nat, i: Instr, regs: Regs, regs1: Regs, l: Label, to: nat)
    requires Instruction(f, b, p, i) && Step(i, regs) == Next(regs1)
    requires Instruction(f, b, p + 1, Jump(l)) && IsBlock(f, to, l)
    ensures Leads(m, f, Config(b, p, regs), 1, Config(to, 0, regs1))
  {
    hide Run;
    assert Leads(m, f, Config(b, p, regs), 0, Config(b, p + 1, regs1)) by {
      InstructionRun(m, f, b, p, i, regs, regs1);
    }
    JumpRun(m, f, b, p + 1, Jump(l), regs1, l, to);
    hide Leads;
    LeadsTrans(m, f, Config(b, p, regs), 0, Config(b, p + 1, regs1), 1, Config(to, 0, regs1));
  }

  lemma InstructionRun(m: Module, f: Function, b: nat, p: nat, i: Instr, regs: Regs, regs1: Regs)
    requires Instruction(f, b, p, i) && Step(i, regs) == Next(regs1)
    ensures Leads(m, f, Config(b, p, regs), 0, Config(b, p + 1, regs1))
  {
    hide Step;
  }

  /** Where the final graph has the pieces of a lowered `&&` or `||`. */
  ghost predicate LogicCode(isAnd: bool, l: Name, s1: Ctx, r: Name, s3: Ctx, f: Function) {
    var n := |s1.blocks|;
    var q := OpenLogic(isAnd, l, s1).1;
    var right, short := Fresh("logic_right_", s1.labelId + 1), Fresh("logic_short_", s1.labelId + 2);
    s1.cur < |s1.blocks| && s3.cur < |s3.blocks| &&
    var p := |s3.blocks[s3.cur].instrs|;
    Instruction(f, s1.cur, |s1.blocks[s1.cur].instrs|,
                BranchIf(l, if isAnd then right else short, if isAnd then short else right)) &&
    IsBlock(f, n, right) && IsBlock(f, n + 1, short) && IsBlock(f, n + 2, q.done) && IsBlock(f, |s3.blocks|, q.cont) &&
    Instruction(f, n + 1, 0, Const(q.dst, RawBool(!isAnd))) && Instruction(f, n + 1, 1, Jump(q.done)) &&
    Instruction(f, s3.cur, p, Copy(q.dst, r)) && Instruction(f, s3.cur, p + 1, Jump(q.done)) &&
    Instruction(f, n + 2, 0, Nop) && Instruction(f, n + 2, 1, Jump(q.cont))
  }

  lemma OpenLogicIs(isAnd: bool, l: Name, st: Ctx)
    requires st.cur < |st.blocks|
    ensures var n := |st.blocks|;
            var right, short, done := Fresh("logic_right_", st.labelId + 1), Fresh("logic_short_", st.labelId + 2),
                                      Fresh("logic_done_", st.labelId + 3);
            var (r, q) := OpenLogic(isAnd, l, st);
            q == Logic(done, Fresh("logic_cont_", st.labelId + 4), n, Temp(st.tempId + 1)) &&
            r.cur == n && |r.blocks| == n + 3 &&
            r.blocks[n] == Block(right, []) && r.blocks[n + 2] == Block(done, []) &&
            r.blocks[n + 1] == Block(short, [Const(q.dst, RawBool(!isAnd)), Jump(done)]) &&
            r.blocks[st.cur].instrs ==
            st.blocks[st.cur].instrs + [BranchIf(l, if isAnd then right else short, if isAnd then short else right)]
  {
    OpenBlocksIs(st, ["logic_right_", "logic_short_", "logic_done_"]);
  }

  lemma CloseLogicIs(r: Name, q: Logic, st: Ctx)
    requires st.cur < |st.blocks| && q.base + 2 < |st.blocks| && st.cur != q.base + 2
    ensures var x := CloseLogic(r, q, st);
            var n := |st.blocks|;
            x.cur == n && |x.blocks| == n + 1 && x.blocks[n] == Block(q.cont, []) &&
            x.blocks[st.cur].instrs == st.blocks[st.cur].instrs + [Copy(q.dst, r), Jump(q.done)] &&
            x.blocks[q.base + 2].instrs == st.blocks[q.base + 2].instrs + [Nop, Jump(q.cont)] &&
            forall i :: 0 <= i < n && i != st.cur && i != q.base + 2 ==> x.blocks[i] == st.blocks[i]
    ensures forall i :: 0 <= i < |st.blocks| ==> CloseLogic(r, q, st).blocks[i].tag == st.blocks[i].tag
  {
  }

  /** What has been emitted is in the final graph, at the same place. */
  lemma CodeAt(st: Ctx, f: Function, b: nat, p: nat)
    requires Within(st, f) && b < |st.blocks| && p < |st.blocks[b].instrs|
    ensures Instruction(f, b, p, st.blocks[b].instrs[p]) && IsBlock(f, b, st.blocks[b].tag)
  {
    assert st.blocks[b].instrs <= f.blocks[b].instrs;
  }

  lemma BlockAt(st: Ctx, f: Function, b: nat)
    requires Within(st, f) && b < |st.blocks|
    ensures IsBlock(f, b, st.blocks[b].tag)
  {
  }

  lemma ClosedWithin(r: Name, q: Logic, s3: Ctx, f: Function)
    requires Ok(s3) && q.base + 2 < |s3.blocks| && s3.cur != q.base + 2 && Within(CloseLogic(r, q, s3), f)
    ensures Within(s3, f)
  {
    CloseLogicIs(r, q, s3);
    var x := CloseLogic(r, q, s3);
    hide CloseLogic;
    forall i | 0 <= i < |s3.blocks|
      ensures s3.blocks[i].tag == x.blocks[i].tag && s3.blocks[i].instrs <= x.blocks[i].instrs
    {
    }
  }

  lemma LogicWithin(isAnd: bool, l: Name, s1: Ctx, r: Name, s3: Ctx, f: Function)
    requires Ok(s1) && Ok(s3)
    requires Grows(OpenLogic(isAnd, l, s1).0, s3) && Within(CloseLogic(r, OpenLogic(isAnd, l, s1).1, s3), f)
    ensures Within(s3, f) && Within(OpenLogic(isAnd, l, s1).0, f) && Within(s1, f)
    ensures var q := OpenLogic(isAnd, l, s1).1;
            s3.cur != q.base + 2 && q.base + 3 <= |s3.blocks| && q.base == |s1.blocks| &&
            s3.blocks[q.base + 2].instrs == []
  {
    OpenLogicIs(isAnd, l, s1);
    var (s2, q) := OpenLogic(isAnd, l, s1);
    OpenLogicGrows(isAnd, l, s1);
    hide OpenLogic;
    CloseLogicIs(r, q, s3);
    var x := CloseLogic(r, q, s3);
    hide CloseLogic;
    ClosedWithin(r, q, s3, f);
    hide Within;
    WithinBefore(s2, s3, f);
    WithinBefore(s1, s2, f);
  }

  lemma LogicCodeThere(isAnd: bool, l: Name, s1: Ctx, r: Name, s3: Ctx, f: Function)
    requires Ok(s1) && Ok(s3)
    requires Grows(OpenLogic(isAnd, l, s1).0, s3) && Within(CloseLogic(r, OpenLogic(isAnd, l, s1).1, s3), f)
    ensures LogicCode(isAnd, l, s1, r, s3, f)
  {
    hide OpenLogic;
    hide CloseLogic;
    hide Grows;
    hide Within;
    hide Instruction;
    hide IsBlock;
    hide Distinct;
    hide Tagged;
    LogicWithin(isAnd, l, s1, r, s3, f);
    LogicOpened(isAnd, l, s1, f);
    LogicClosed(r, OpenLogic(isAnd, l, s1).1, s3, f);
    OpenLogicIs(isAnd, l, s1);
  }

  lemma LogicOpened(isAnd: bool, l: Name, s1: Ctx, f: Function)
    requires s1.cur < |s1.blocks| && Within(OpenLogic(isAnd, l, s1).0, f)
    ensures var n, q := |s1.blocks|, OpenLogic(isAnd, l, s1).1;
            var right, short := Fresh("logic_right_", s1.labelId + 1), Fresh("logic_short_", s1.labelId + 2);
            Instruction(f, s1.cur, |s1.blocks[s1.cur].instrs|,
                        BranchIf(l, if isAnd then right else short, if isAnd then short else right)) &&
            IsBlock(f, n, right) && IsBlock(f, n + 1, short) && IsBlock(f, n + 2, q.done) &&
            Instruction(f, n + 1, 0, Const(q.dst, RawBool(!isAnd))) && Instruction(f, n + 1, 1, Jump(q.done))
  {
    OpenLogicIs(isAnd, l, s1);
    var s2 := OpenLogic(isAnd, l, s1).0;
    hide OpenLogic;
    hide Within;
    hide Instruction;
    hide IsBlock;
    var n := |s1.blocks|;
    BlockAt(s2, f, n);
    CodeAt(s2, f, n + 1, 0);
    CodeAt(s2, f, n + 1, 1);
    CodeAt(s2, f, s1.cur, |s1.blocks[s1.cur].instrs|);
    BlockAt(s2, f, n + 2);
  }

  lemma LogicClosed(r: Name, q: Logic, s3: Ctx, f: Function)
    requires s3.cur < |s3.blocks| && q.base + 2 < |s3.blocks| && s3.cur != q.base + 2 &&
             s3.blocks[q.base + 2].instrs == []
    requires Within(CloseLogic(r, q, s3), f)
    ensures var p := |s3.blocks[s3.cur].instrs|;
            Instruction(f, s3.cur, p, Copy(q.dst, r)) && Instruction(f, s3.cur, p + 1, Jump(q.done)) &&
            Instruction(f, q.base + 2, 0, Nop) && Instruction(f, q.base + 2, 1, Jump(q.cont)) &&
            IsBlock(f, |s3.blocks|, q.cont)
  {
    CloseLogicIs(r, q, s3);
    var x := CloseLogic(r, q, s3);
    hide CloseLogic;
    hide Within;
    hide Instruction;
    hide IsBlock;
    BlockAt(x, f, |s3.blocks|);
    CodeAt(x, f, s3.cur, |s3.blocks[s3.cur].instrs|);
    CodeAt(x, f, s3.cur, |s3.blocks[s3.cur].instrs| + 1);
    CodeAt(x, f, q.base + 2, 0);
    CodeAt(x, f, q.base + 2, 1);
  }

  /** The join of a lowered `&&` or `||`: from the done block on to the cont block. */
  lemma LogicTail(m: Module, f: Function, isAnd: bool, l: Name, s1: Ctx, r: Name, s3: Ctx, a: Config, k: nat, b: nat,
                  p: nat, i: Instr, regs: Regs, v: Value)
    requires LogicCode(isAnd, l, s1, r, s3, f)
    requires var q := OpenLogic(isAnd, l, s1).1;
             Leads(m, f, a, k, Config(b, p, regs)) &&
             Instruction(f, b, p, i) && Step(i, regs) == Next(regs[q.dst := v]) &&
             Instruction(f, b, p + 1, Jump(q.done))
    ensures var q := OpenLogic(isAnd, l, s1).1; Leads(m, f, a, k + 2, Config(|s3.blocks|, 0, regs[q.dst := v]))
  {
    hide Run;
    hide Leads;
    hide OpenLogic;
    hide Instruction;
    hide IsBlock;
    var q := OpenLogic(isAnd, l, s1).1;
    var n, regs1 := |s1.blocks|, regs[q.dst := v];
    Hop(m, f, b, p, i, regs, regs1, q.done, n + 2);
    Hop(m, f, n + 2, 0, Nop, regs1, regs1, q.cont, |s3.blocks|);
    LeadsTrans(m, f, a, k, Config(b, p, regs), 1, Config(n + 2, 0, regs1));
    LeadsTrans(m, f, a, k + 1, Config(n + 2, 0, regs1), 1, Config(|s3.blocks|, 0, regs1));
  }

  /** The branch after the left operand. */
  lemma LogicHead(m: Module, f: Function, isAnd: bool, l: Name, s1: Ctx, r: Name, s3: Ctx, a: Config, k: nat,
                  regs: Regs)
    requires LogicCode(isAnd, l, s1, r, s3, f) && l in regs && Leads(m, f, a, k, Here(s1, regs))
    ensures match regs[l]
            case VBool(b) => Leads(m, f, a, k + 1, Config(if b == isAnd then |s1.blocks| else |s1.blocks| + 1, 0, regs))
            case VInt(_) => Ends(m, f, a, k, Trapped(TypeError))
  {
    hide Run;
    hide Leads;
    hide OpenLogic;
    var n := |s1.blocks|;
    var right, short := Fresh("logic_right_", s1.labelId + 1), Fresh("logic_short_", s1.labelId + 2);
    var i := BranchIf(l, if isAnd then right else short, if isAnd then short else right);
    var p := |s1.blocks[s1.cur].instrs|;
    match regs[l]
    case VBool(b) =>
      var to := if b == isAnd then n else n + 1;
      JumpRun(m, f, s1.cur, p, i, regs, if b == isAnd then right else short, to);
      LeadsTrans(m, f, a, k, Here(s1, regs), 1, Config(to, 0, regs));
    case VInt(_) =>
      InstructionStop(m, f, s1.cur, p, i, regs, Trapped(TypeError));
      LeadsEnds(m, f, a, k, Here(s1, regs), 0, Trapped(TypeError));
  }

  lemma InstructionStop(m: Module, f: Function, b: nat, p: nat, i: Instr, regs: Regs, o: Outcome)
    requires Instruction(f, b, p, i) && Step(i, regs) == Stop(o)
    ensures Ends(m, f, Config(b, p, regs), 0, o)
  {
    hide Step;
  }

  lemma LogicParts(e: Expr, ks: Kinds, g: seq<Decl>, env: seq<Value>, st: Ctx)
    requires e.ELogic?
    ensures Legal(e, g) ==> Legal(e.left, g) && Legal(e.right, g)
    ensures forall x: string :: Mentions(e.left, x) || Mentions(e.right, x) ==> Mentions(e, x)
    ensures var x := EvalLowered(e.left, ks, g, env);
            EvalLowered(e, ks, g, env) ==
            if x.Fault? then x
            else if x.v.VInt? then Fault(TypeError)
            else if x.v.b == e.isAnd then EvalLowered(e.right, ks, g, x.env) else x
  {
    hide *;
    LogicWf(e, g);
    LogicEval(e, ks, g, env);
  }

  lemma LogicEval(e: Expr, ks: Kinds, g: seq<Decl>, env: seq<Value>)
    requires e.ELogic?
    ensures var x := EvalLowered(e.left, ks, g, env);
            EvalLowered(e, ks, g, env) ==
            if x.Fault? then x
            else if x.v.VInt? then Fault(TypeError)
            else if x.v.b == e.isAnd then EvalLowered(e.right, ks, g, x.env) else x
  {
    hide RawUn;
    hide Operate;
    hide Find;
  }

  lemma LogicWf(e: Expr, g: seq<Decl>)
    requires e.ELogic?
    ensures Legal(e, g) ==> Legal(e.left, g) && Legal(e.right, g)
    ensures forall x: string :: Mentions(e.left, x) || Mentions(e.right, x) ==> Mentions(e, x)
  {
    hide TypeOf;
  }

  lemma LogicLowered(e: Expr, st: Ctx)
    requires e.ELogic?
    ensures var (s1, l) := LowerExpr(e.left, st);
            var (s2, q) := OpenLogic(e.isAnd, l, s1);
            var (s3, r) := LowerExpr(e.right, s2);
            LowerExpr(e, st) == (CloseLogic(r, q, s3), q.dst)
  {
    hide OpenLogic;
    hide CloseLogic;
    hide Emit;
    hide EmitBin;
  }

  lemma SimLogic(m: Module, f: Function, e: Expr, ks: Kinds, g: seq<Decl>, env: seq<Value>, slots: seq<Name>, st: Ctx,
                 regs: Regs)
    returns (k: nat, regs1: Regs)
    requires Legal(e, g) && e.ELogic?
    requires Ok(st) && ks == Kinds(st.scope, st.types) && Within(LowerExpr(e, st).0, f)
    requires BindsFor(e, st, g, slots) && Holds(env, slots, regs)
    ensures FollowsExpr(m, f, e, ks, g, env, slots, st, regs, k, regs1)
    decreases e, 0, 2
  {
    hide *;
    LogicParts(e, ks, g, env, st);
    LogicLowered(e, st);
    var (s1, l) := LowerExpr(e.left, st);
    var (s2, q) := OpenLogic(e.isAnd, l, s1);
    var (s3, r) := LowerExpr(e.right, s2);
    SubFacts(e, e.left, st, st, g, slots);
    OpenFacts(e.isAnd, l, s1);
    SubFacts(e, e.right, st, s2, g, slots);
    LogicWithin(e.isAnd, l, s1, r, s3, f);
    LogicCodeThere(e.isAnd, l, s1, r, s3, f);
    var x := EvalLowered(e.left, ks, g, env);
    k, regs1 := SimLowered(m, f, e.left, ks, g, env, slots, st, regs);
    FollowsOf(m, f, e.left, ks, g, env, slots, st, regs, k, regs1);
    if x.Fault? {
      EndsAnyhow(m, f, x, slots, st, s1, l, LowerExpr(e, st).0, LowerExpr(e, st).1, regs, k, regs1);
    } else {
      HoldsOf(m, f, x, slots, st, s1, l, regs, k, regs1);
      LogicHead(m, f, e.isAnd, l, s1, r, s3, Here(st, regs), k, regs1);
      if x.v.VInt? {
        TrapFollows(m, f, TypeError, slots, st, LowerExpr(e, st).0, LowerExpr(e, st).1, regs, k, regs1);
      } else if x.v.b == e.isAnd {
        k, regs1 := SimRight(m, f, e, ks, g, x, slots, st, regs, k + 1, regs1);
      } else {
        LogicEnd(e.isAnd, l, s1, r, s3, regs1[q.dst := x.v]);
        regs1 := SimShort(m, f, e, x, slots, st, st.varId, regs, k + 1, regs1);
        k := k + 3;
      }
    }
    AsExpr(m, f, e, ks, g, env, slots, st, regs, k, regs1);
  }

  lemma OpenFacts(isAnd: bool, l: Name, s1: Ctx)
    requires Ok(s1)
    ensures var (s2, q) := OpenLogic(isAnd, l, s1);
            Ok(s2) && Grows(s1, s2) && s2.scope == s1.scope && s2.types == s1.types && s1.varId <= s2.varId &&
            q.dst == Temp(s1.tempId + 1) && s2.tempId == s1.tempId + 1 && s2.cur == |s1.blocks|
    ensures forall regs: Regs :: Here(OpenLogic(isAnd, l, s1).0, regs) == Config(|s1.blocks|, 0, regs)
  {
    OpenLogicGrows(isAnd, l, s1);
    OpenLogicIs(isAnd, l, s1);
    hide OpenLogic;
  }

  lemma TrapFollows(m: Module, f: Function, t: Trap, slots: seq<Name>, st: Ctx, r: Ctx, v: Name, regs: Regs, k: nat,
                    regs1: Regs)
    requires Ends(m, f, Here(st, regs), k, Trapped(t))
    ensures Follows(m, f, Fault(t), slots, st, r, v, regs, k, regs1)
  {
  }

  lemma LogicEnd(isAnd: bool, l: Name, s1: Ctx, r: Name, s3: Ctx, regs: Regs)
    requires Ok(s1) && s3.cur < |s3.blocks| && |s1.blocks| + 2 < |s3.blocks| && s3.cur != |s1.blocks| + 2
    ensures Here(CloseLogic(r, OpenLogic(isAnd, l, s1).1, s3), regs) == Config(|s3.blocks|, 0, regs)
  {
    OpenLogicIs(isAnd, l, s1);
    var q := OpenLogic(isAnd, l, s1).1;
    hide OpenLogic;
    CloseLogicIs(r, q, s3);
    hide CloseLogic;
  }

  /** The short block. */
  lemma SimShort(m: Module, f: Function, e: Expr, x: Evaluated, slots: seq<Name>, st: Ctx, n: nat, regs: Regs, k: nat,
                 r1: Regs) returns (regs1: Regs)
    requires e.ELogic? && x.Val? && x.v == VBool(!e.isAnd) && Ok(st)
    requires var (s1, l) := LowerExpr(e.left, st);
             var (s2, q) := OpenLogic(e.isAnd, l, s1);
             var (s3, r) := LowerExpr(e.right, s2);
             Ok(s1) && st.tempId <= s1.tempId && LogicCode(e.isAnd, l, s1, r, s3, f) &&
             Here(CloseLogic(r, q, s3), r1[q.dst := x.v]) == Config(|s3.blocks|, 0, r1[q.dst := x.v]) &&
             Leads(m, f, Here(st, regs), k, Config(|s1.blocks| + 1, 0, r1)) && q.dst == Temp(s1.tempId + 1)
    requires Holds(x.env, slots, r1) && KeepsTemps(st.tempId, regs, r1) && Slots(slots, n)
    ensures var (s1, l) := LowerExpr(e.left, st);
            var (s2, q) := OpenLogic(e.isAnd, l, s1);
            var (s3, r) := LowerExpr(e.right, s2);
            Follows(m, f, x, slots, st, CloseLogic(r, q, s3), q.dst, regs, k + 2, regs1)
  {
    hide Run;
    hide Leads;
    hide LowerExpr;
    hide OpenLogic;
    hide CloseLogic;
    hide Here;
    var (s1, l) := LowerExpr(e.left, st);
    var (s2, q) := OpenLogic(e.isAnd, l, s1);
    var (s3, r) := LowerExpr(e.right, s2);
    regs1 := r1[q.dst := x.v];
    LogicTail(m, f, e.isAnd, l, s1, r, s3, Here(st, regs), k, |s1.blocks| + 1, 0, Const(q.dst, RawBool(!e.isAnd)), r1,
              x.v);
  }

  /** The right operand and what follows it. */
  lemma SimRight(m: Module, f: Function, e: Expr, ks: Kinds, g: seq<Decl>, x: Evaluated, slots: seq<Name>, st: Ctx,
                 regs: Regs, k1: nat, r1: Regs)
    returns (k: nat, regs1: Regs)
    requires e.ELogic? && x.Val? && Legal(e.right, g) && Ok(st) && BindsFor(e, st, g, slots) &&
             ks == Kinds(st.scope, st.types)
    requires forall x: string :: Mentions(e.left, x) || Mentions(e.right, x) ==> Mentions(e, x)
    requires var (s1, l) := LowerExpr(e.left, st);
             var (s2, q) := OpenLogic(e.isAnd, l, s1);
             var (s3, r) := LowerExpr(e.right, s2);
             Within(s3, f) && LogicCode(e.isAnd, l, s1, r, s3, f) &&
             Leads(m, f, Here(st, regs), k1, Config(|s1.blocks|, 0, r1))
    requires Holds(x.env, slots, r1) && KeepsTemps(st.tempId, regs, r1)
    requires var s1 := LowerExpr(e.left, st).0;
             |s1.blocks| + 2 < |LowerExpr(e.right, OpenLogic(e.isAnd, LowerExpr(e.left, st).1, s1).0).0.blocks| &&
             LowerExpr(e.right, OpenLogic(e.isAnd, LowerExpr(e.left, st).1, s1).0).0.cur != |s1.blocks| + 2
    ensures var (s1, l) := LowerExpr(e.left, st);
            var (s2, q) := OpenLogic(e.isAnd, l, s1);
            var (s3, r) := LowerExpr(e.right, s2);
            Follows(m, f, EvalLowered(e.right, ks, g, x.env), slots, st, CloseLogic(r, q, s3), q.dst, regs, k, regs1)
    decreases e, 0, 1
  {
    hide *;
    var (s1, l) := LowerExpr(e.left, st);
    var (s2, q) := OpenLogic(e.isAnd, l, s1);
    var (s3, r) := LowerExpr(e.right, s2);
    SubFacts(e, e.left, st, st, g, slots);
    OpenFacts(e.isAnd, l, s1);
    SubFacts(e, e.right, st, s2, g, slots);
    var y := EvalLowered(e.right, ks, g, x.env);
    k, regs1 := SimLowered(m, f, e.right, ks, g, x.env, slots, s2, r1);
    FollowsOf(m, f, e.right, ks, g, x.env, slots, s2, r1, k, regs1);
    k, regs1 := JoinRight(m, f, e.isAnd, l, s1, r, s3, y, slots, st.varId, st, regs, k1, r1, k, regs1);
  }

  lemma JoinRight(m: Module, f: Function, isAnd: bool, l: Name, s1: Ctx, r: Name, s3: Ctx, y: Evaluated,
                  slots: seq<Name>, n: nat, st: Ctx, regs: Regs, k1: nat, r1: Regs, k2: nat, r2: Regs)
    returns (k: nat, regs1: Regs)
    requires Ok(s1) && Ok(s3) && st.tempId <= s1.tempId && LogicCode(isAnd, l, s1, r, s3, f) && Slots(slots, n)
    requires |s1.blocks| + 2 < |s3.blocks| && s3.cur != |s1.blocks| + 2
    requires Leads(m, f, Here(st, regs), k1, Config(|s1.blocks|, 0, r1)) && KeepsTemps(st.tempId, regs, r1)
    requires Follows(m, f, y, slots, OpenLogic(isAnd, l, s1).0, s3, r, r1, k2, r2)
    ensures var q := OpenLogic(isAnd, l, s1).1;
            Follows(m, f, y, slots, st, CloseLogic(r, q, s3), q.dst, regs, k, regs1)
  {
    hide *;
    OpenFacts(isAnd, l, s1);
    var (s2, q) := OpenLogic(isAnd, l, s1);
    k, regs1 := k1 + k2, r2;
    if y.Fault? {
      FaultEnds(m, f, y, slots, s2, s3, r, r1, k2, r2);
      LeadsEnds(m, f, Here(st, regs), k1, Here(s2, r1), k2, Trapped(y.t));
      TrapFollows(m, f, y.t, slots, st, CloseLogic(r, q, s3), q.dst, regs, k, regs1);
    } else {
      HoldsOf(m, f, y, slots, s2, s3, r, r1, k2, r2);
      LeadsTrans(m, f, Here(st, regs), k1, Here(s2, r1), k2, Here(s3, r2));
      HereIs(s3, r2);
      CodeOf(isAnd, l, s1, r, s3, f);
      CopyStep(q.dst, r, r2);
      LogicTail(m, f, isAnd, l, s1, r, s3, Here(st, regs), k1 + k2, s3.cur, |s3.blocks[s3.cur].instrs|, Copy(q.dst, r),
                r2, y.v);
      k, regs1 := k1 + k2 + 2, r2[q.dst := y.v];
      LogicEnd(isAnd, l, s1, r, s3, regs1);
      Joined(m, f, y, slots, n, st, s1, CloseLogic(r, q, s3), regs, r1, k, r2);
    }
  }

  lemma FaultEnds(m: Module, f: Function, x: Evaluated, slots: seq<Name>, st: Ctx, r: Ctx, v: Name, regs: Regs, k: nat,
                  regs1: Regs)
    requires x.Fault? && Follows(m, f, x, slots, st, r, v, regs, k, regs1)
    ensures Ends(m, f, Here(st, regs), k, Trapped(x.t))
  {
  }

  lemma HereIs(st: Ctx, regs: Regs)
    requires Ok(st)
    ensures st.cur < |st.blocks| && Here(st, regs) == Config(st.cur, |st.blocks[st.cur].instrs|, regs)
  {
  }

  lemma CopyStep(dst: Name, src: Name, regs: Regs)
    requires src in regs
    ensures Step(Copy(dst, src), regs) == Next(regs[dst := regs[src]])
  {
  }

  lemma CodeOf(isAnd: bool, l: Name, s1: Ctx, r: Name, s3: Ctx, f: Function)
    requires LogicCode(isAnd, l, s1, r, s3, f)
    ensures var q := OpenLogic(isAnd, l, s1).1;
            s3.cur < |s3.blocks| && var p := |s3.blocks[s3.cur].instrs|;
                                 Instruction(f, s3.cur, p, Copy(q.dst, r)) &&
                                 Instruction(f, s3.cur, p + 1, Jump(q.done))
  {
    hide OpenLogic;
    hide Instruction;
    hide IsBlock;
  }

  /** The result is in its register, and nothing older has changed. */
  lemma Joined(m: Module, f: Function, y: Evaluated, slots: seq<Name>, n: nat, st: Ctx, s1: Ctx, r: Ctx, regs: Regs,
               r1: Regs, k: nat, r2: Regs)
    requires y.Val? && Holds(y.env, slots, r2) && Slots(slots, n) && st.tempId <= s1.tempId
    requires KeepsTemps(st.tempId, regs, r1) && KeepsTemps(s1.tempId + 1, r1, r2)
    requires Leads(m, f, Here(st, regs), k, Here(r, r2[Temp(s1.tempId + 1) := y.v]))
    ensures Follows(m, f, y, slots, st, r, Temp(s1.tempId + 1), regs, k, r2[Temp(s1.tempId + 1) := y.v])
  {
    hide Leads;
    hide Here;
    HoldsTemp(y.env, slots, n, r2, s1.tempId + 1, y.v);
  }

  // ----- the evaluation of the manual -----

  lemma ReadIs(x: string, g: seq<Decl>, env: seq<Value>)
    requires |env| == |g|
    ensures Read(x, g, env) == match Find(g, x) case Some(k) => Some(env[k]) case None => None
  {
  }

  /** Within the static conditions lowered code computes what the manual says. */
  lemma {:induction false} LoweredIsEval(e: Expr, st: Ctx, g: seq<Decl>, env: seq<Value>,
                                         slots: seq<Name>)
    requires |env| == |g| && WfExpr(e, g) && ExprFits(e, st, g, slots)
    requires BindsFor(e, st, g, slots)
    ensures EvalLowered(e, Kinds(st.scope, st.types), g, env) == Eval(e, g, env)
    decreases e, 0
  {
    hide Operate;
    hide RawUn;
    hide BindsFor;
    hide IntLike;
    hide Read;
    hide TypeOf;
    var ks := Kinds(st.scope, st.types);
    match e {
      case EVar(x) => ReadIs(x, g, env);
      case EInc(_, _, x) => ReadIs(x, g, env);
      case EUn(op, arg) => if op == Neg && arg == ELit(-INT_MIN) { } else { LoweredSub(e, arg, st, g, env, slots); }
      case EBin(op, left, right) =>
        LoweredSub(e, left, st, g, env, slots);
        var x := Eval(left, g, env);
        if x.Val? {
          LoweredSub(e, right, st, g, x.env, slots);
          ComputeIs(e, st, g, slots);
        }
      case ELogic(_, left, right) =>
        LoweredSub(e, left, st, g, env, slots);
        var x := Eval(left, g, env);
        if x.Val? { LoweredSub(e, right, st, g, x.env, slots); }
      case ECond(cond, yes, no) =>
        LoweredSub(e, cond, st, g, env, slots);
        var x := Eval(cond, g, env);
        if x.Val? {
          LoweredSub(e, yes, st, g, x.env, slots);
          LoweredSub(e, no, st, g, x.env, slots);
          SimpleEval(yes, g, x.env);
          SimpleEval(no, g, x.env);
        }
      case _ =>
    }
  }

  lemma LoweredSub(e: Expr, sub: Expr, st: Ctx, g: seq<Decl>, env: seq<Value>, slots: seq<Name>)
    requires |env| == |g| && WfExpr(sub, g) && ExprFits(sub, st, g, slots) && sub < e
    requires BindsFor(e, st, g, slots)
    requires forall x: string :: Mentions(sub, x) ==> Mentions(e, x)
    ensures EvalLowered(sub, Kinds(st.scope, st.types), g, env) == Eval(sub, g, env)
    decreases sub, 1
  {
    BindsSub(e, sub, st, g, slots);
    LoweredIsEval(sub, st, g, env, slots);
  }

  lemma SimpleEval(e: Expr, g: seq<Decl>, env: seq<Value>)
    requires |env| == |g| && WfExpr(e, g) && SimpleArm(e)
    ensures var r := Eval(e, g, env); r.Val? && r.env == env
  {
  }

  /** Arithmetic is checked, and for comparisons the bare instruction is the operator. */
  lemma ComputeIs(e: Expr, st: Ctx, g: seq<Decl>, slots: seq<Name>)
    requires e.EBin? && WfExpr(e, g) && ExprFits(e, st, g, slots)
    requires BindsFor(e, st, g, slots)
    ensures forall a, b :: Compute(e.op, IntLike(e.left, e.right, Kinds(st.scope, st.types)), a, b) ==
                           Operate(e.op, a, b)
  {
    if IsArithmetic(e.op) {
      BindsSub(e, e.left, st, g, slots);
      BindsSub(e, e.right, st, g, slots);
      GuessIsType(e.left, st, g, slots);
      GuessIsType(e.right, st, g, slots);
      GuessKinds(e.left, st);
      GuessKinds(e.right, st);
    }
  }

  lemma SimExpr(m: Module, f: Function, e: Expr, g: seq<Decl>, env: seq<Value>, slots: seq<Name>, st: Ctx,
                regs: Regs)
    returns (k: nat, regs1: Regs)
    requires |env| == |g| && WfExpr(e, g) && ExprFits(e, st, g, slots)
    requires Ok(st) && Within(LowerExpr(e, st).0, f)
    requires BindsFor(e, st, g, slots) && Holds(env, slots, regs)
    ensures Follows(m, f, Eval(e, g, env), slots, st, LowerExpr(e, st).0, LowerExpr(e, st).1, regs, k, regs1)
  {
    hide *;
    var ks := Kinds(st.scope, st.types);
    WfIsLegal(e, g);
    LoweredIsEval(e, st, g, env, slots);
    k, regs1 := SimLowered(m, f, e, ks, g, env, slots, st, regs);
    FollowsOf(m, f, e, ks, g, env, slots, st, regs, k, regs1);
  }
}
