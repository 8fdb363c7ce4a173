/** Lowering preserves meaning: a run of the emitted blocks follows the execution of the source. */
module StmtMeaning {
  import opened Options
  import opened Ir
  import opened Source
  import opened Lowering
  import opened WorkingGraph
  import opened Static
  import opened Names
  import opened StmtShape
  import opened ExprMeaning
  import opened StmtFollows
  import opened WrittenCode
  import opened TypesKept

  // ----- blocks of statements -----

  ghost predicate SimulatesAll(m: Module, f: Function, ss: seq<Stmt>, g: seq<Decl>, env: seq<Value>, slots: seq<Name>,
                               exits: Exits, st: Ctx, regs: Regs, fuel: nat, k: nat, regs1: Regs)
    requires |env| == |g|
  {
    var x := ExecAll(ss, g, env, fuel);
    FollowsStmt(m, f, x, slots, SlotsAll(ss, slots, st), exits, Here(st, regs), End(LowerAll(ss, st)), k, regs1,
                fuel) &&
    (EndsNormally(x) ==> !Terminated(LowerAll(ss, st)))
  }

  lemma {:induction false} SimAll(m: Module, f: Function, ss: seq<Stmt>, g: seq<Decl>, env: seq<Value>,
                                  slots: seq<Name>, exits: Exits,
                                  st: Ctx, regs: Regs, fuel: nat, brk: bool, lp: bool)
    returns (k: nat, regs1: Regs)
    requires |env| == |g| && Ready(st, g, slots) && Holds(env, slots, regs) && WfAll(ss, g, brk, lp)
    requires AllFits(ss, st, g, slots)
    requires Within(LowerAll(ss, st), f) && Targets(st, f, brk, lp, exits) && !Terminated(st)
    ensures SimulatesAll(m, f, ss, g, env, slots, exits, st, regs, fuel, k, regs1)
    decreases fuel, ss, 0
  {
    hide *;
    AllParts(ss, g, env, slots, st, fuel);
    if ss == [] {
      k, regs1 := 0, regs;
      LeadsSelf(m, f, Here(st, regs));
      HereIsEnd(st, regs);
      FollowsNormal(m, f, env, slots, slots, exits, Here(st, regs), End(st), 0, regs, fuel);
      AllIs(m, f, ss, g, env, slots, exits, st, regs, fuel, k, regs1);
    } else {
      WfAllParts(ss, g, brk, lp);
      AllFitsParts(ss, st, g, slots, brk, lp);
      var s, rest := ss[0], ss[1..];
      var s1, g1, more := LowerStmt(s, st), After(g, s), SlotsAfter(s, slots, st);
      StmtWent(s, st, g, slots, brk, lp);
      ReadyOf(st, s1, g1, more);
      AllWent(rest, s1, g1, more, brk, lp);
      ReadyOf(s1, LowerAll(rest, s1), AfterAll(g1, rest), SlotsAll(rest, more, s1));
      WithinBefore(s1, LowerAll(rest, s1), f);
      k, regs1 := SimStmt(m, f, s, g, env, slots, exits, st, regs, fuel, brk, lp);
      var x := Exec(s, g, env, fuel);
      NormalOf(m, f, s, g, env, slots, exits, st, regs, fuel, k, regs1);
      if EndsNormally(x) {
        TargetsKept(st, s1, f, brk, lp, exits);
        var k1 := k;
        HereIsEnd(s1, regs1);
        var r1 := regs1;
        k, regs1 := SimAll(m, f, rest, g1, x.env, more, exits, s1, r1, fuel, brk, lp);
        FollowsAll(m, f, rest, g1, x.env, more, exits, s1, r1, fuel, k, regs1);
        FollowsBefore(m, f, ExecAll(rest, g1, x.env, fuel), more, SlotsAll(rest, more, s1), exits,
                      Here(st, regs), k1, Here(s1, r1), End(LowerAll(rest, s1)), k, regs1, fuel, fuel);
        k := k1 + k;
        SlotsGrow(s, slots, st);
        FollowsNarrow(m, f, ExecAll(rest, g1, x.env, fuel), more, SlotsAll(rest, more, s1), slots, exits,
                      Here(st, regs), End(LowerAll(rest, s1)), k, regs1, fuel);
        AllIs(m, f, ss, g, env, slots, exits, st, regs, fuel, k, regs1);
      } else {
        Abrupt(m, f, x, slots, more, SlotsAll(rest, more, s1), exits, Here(st, regs), End(s1), End(LowerAll(rest, s1)),
               k, regs1, fuel);
        AbruptIs(x);
        AllIs(m, f, ss, g, env, slots, exits, st, regs, fuel, k, regs1);
      }
    }
  }

  lemma AbruptIs(x: Executed)
    requires !EndsNormally(x)
    ensures !(x.Done? && x.sig.Normal?)
  {
  }

  lemma HereIsEnd(st: Ctx, regs: Regs)
    ensures SpotAt(End(st), regs) == Here(st, regs)
  {
  }

  lemma AllParts(ss: seq<Stmt>, g: seq<Decl>, env: seq<Value>, slots: seq<Name>, st: Ctx, fuel: nat)
    requires |env| == |g|
    ensures ss == [] ==> ExecAll(ss, g, env, fuel) == Done(Normal, env) && LowerAll(ss, st) == st &&
                         SlotsAll(ss, slots, st) == slots
    ensures ss != [] ==> LowerAll(ss, st) == LowerAll(ss[1..], LowerStmt(ss[0], st)) &&
                         SlotsAll(ss, slots, st) ==
                         SlotsAll(ss[1..], SlotsAfter(ss[0], slots, st), LowerStmt(ss[0], st))
    ensures ss != [] ==> var x := Exec(ss[0], g, env, fuel);
                         ExecAll(ss, g, env, fuel) ==
                         if EndsNormally(x) then ExecAll(ss[1..], After(g, ss[0]), x.env, fuel) else x
  {
    hide LowerStmt;
    hide Exec;
  }

  lemma WfAllParts(ss: seq<Stmt>, g: seq<Decl>, brk: bool, lp: bool)
    requires WfAll(ss, g, brk, lp) && ss != []
    ensures WfStmt(ss[0], g, brk, lp) && WfAll(ss[1..], After(g, ss[0]), brk, lp)
  {
    hide WfStmt;
  }

  lemma NormalOf(m: Module, f: Function, s: Stmt, g: seq<Decl>, env: seq<Value>, slots: seq<Name>, exits: Exits,
                 st: Ctx, regs: Regs, fuel: nat, k: nat, regs1: Regs)
    requires |env| == |g| && Simulates(m, f, s, g, env, slots, exits, st, regs, fuel, k, regs1)
    ensures var x := Exec(s, g, env, fuel);
            var more := SlotsAfter(s, slots, st);
            FollowsStmt(m, f, x, slots, more, exits, Here(st, regs), End(LowerStmt(s, st)), k, regs1, fuel) &&
            (EndsNormally(x) ==> x.Done? && !Terminated(LowerStmt(s, st)) &&
                                 Leads(m, f, Here(st, regs), k, Here(LowerStmt(s, st), regs1)) &&
                                 Holds(x.env, more, regs1) && |x.env| == |After(g, s)|)
  {
    hide Exec;
    hide LowerStmt;
    hide Leads;
    hide Holds;
    hide Ends;
    hide Run;
  }

  lemma FollowsAll(m: Module, f: Function, ss: seq<Stmt>, g: seq<Decl>, env: seq<Value>, slots: seq<Name>, exits: Exits,
                   st: Ctx, regs: Regs, fuel: nat, k: nat, regs1: Regs)
    requires |env| == |g| && SimulatesAll(m, f, ss, g, env, slots, exits, st, regs, fuel, k, regs1)
    ensures var x := ExecAll(ss, g, env, fuel);
            FollowsStmt(m, f, x, slots, SlotsAll(ss, slots, st), exits, Here(st, regs), End(LowerAll(ss, st)), k, regs1,
                        fuel) &&
            (EndsNormally(x) ==> !Terminated(LowerAll(ss, st)))
  {
    hide ExecAll;
    hide LowerAll;
    hide FollowsStmt;
  }

  lemma AllIs(m: Module, f: Function, ss: seq<Stmt>, g: seq<Decl>, env: seq<Value>, slots: seq<Name>, exits: Exits,
              st: Ctx, regs: Regs, fuel: nat, k: nat, regs1: Regs)
    requires |env| == |g|
    requires var x := ExecAll(ss, g, env, fuel);
             FollowsStmt(m, f, x, slots, SlotsAll(ss, slots, st), exits, Here(st, regs), End(LowerAll(ss, st)), k,
                         regs1, fuel) &&
             (EndsNormally(x) ==> !Terminated(LowerAll(ss, st)))
    ensures SimulatesAll(m, f, ss, g, env, slots, exits, st, regs, fuel, k, regs1)
  {
    hide ExecAll;
    hide LowerAll;
    hide FollowsStmt;
  }

  lemma TargetsKept(a: Ctx, b: Ctx, f: Function, brk: bool, lp: bool, x: Exits)
    requires Targets(a, f, brk, lp, x) && Grows(a, b)
    ensures Targets(b, f, brk, lp, x)
  {
  }

  lemma SlotsGrow(s: Stmt, slots: seq<Name>, st: Ctx)
    ensures slots <= SlotsAfter(s, slots, st)
  {
  }

  /** Fewer slots are enough for an abrupt end. */
  lemma FollowsNarrow(m: Module, f: Function, x: Executed, slots: seq<Name>, more: seq<Name>, fewer: seq<Name>,
                      exits: Exits, c: Config, d: Spot, k: nat, regs1: Regs, fuel: nat)
    requires FollowsStmt(m, f, x, slots, more, exits, c, d, k, regs1, fuel) && fewer <= slots
    ensures FollowsStmt(m, f, x, fewer, more, exits, c, d, k, regs1, fuel)
  {
    hide Leads;
    hide Run;
    if x.Done? && (x.sig.Break? || x.sig.Continue?) {
      forall i | 0 <= i < |fewer|
        ensures if i < |x.env| then fewer[i] in regs1 && regs1[fewer[i]] == x.env[i] else fewer[i] !in regs1
      {
        assert slots[i] == fewer[i];
      }
    }
  }

  /** An end that is not normal says nothing about the end point. */
  lemma Abrupt(m: Module, f: Function, x: Executed, slots: seq<Name>, more: seq<Name>, more': seq<Name>, exits: Exits,
               c: Config, d: Spot, d': Spot, k: nat, regs1: Regs, fuel: nat)
    requires !EndsNormally(x) && FollowsStmt(m, f, x, slots, more, exits, c, d, k, regs1, fuel)
    ensures FollowsStmt(m, f, x, slots, more', exits, c, d', k, regs1, fuel)
  {
    hide Leads;
    hide Run;
    hide Holds;
  }

  lemma SimBlock(m: Module, f: Function, s: Stmt, g: seq<Decl>, env: seq<Value>, slots: seq<Name>, exits: Exits,
                 st: Ctx, regs: Regs, fuel: nat, brk: bool, lp: bool)
    returns (k: nat, regs1: Regs)
    requires |env| == |g| && Ready(st, g, slots) && Holds(env, slots, regs) && WfStmt(s, g, brk, lp) && s.SBlock?
    requires StmtFits(s, st, g, slots)
    requires Within(LowerStmt(s, st), f) && Targets(st, f, brk, lp, exits) && !Terminated(st)
    ensures Simulates(m, f, s, g, env, slots, exits, st, regs, fuel, k, regs1)
    decreases fuel, s, 0
  {
    hide *;
    BlockParts(s, g, env, st, fuel, brk, lp);
    BlockFits(s, st, g, slots);
    ReadyOk(st, g, slots);
    k, regs1 := SimAll(m, f, s.body, g, env, slots, exits, st, regs, fuel, brk, lp);
    FollowsAll(m, f, s.body, g, env, slots, exits, st, regs, fuel, k, regs1);
    FollowsCut(m, f, ExecAll(s.body, g, env, fuel), |g|, slots, SlotsAll(s.body, slots, st), exits,
               Here(st, regs), End(LowerAll(s.body, st)), k, regs1, fuel);
    CutNormal(ExecAll(s.body, g, env, fuel), |g|);
    CompoundIs(m, f, s, g, env, slots, exits, st, regs, fuel, k, regs1);
  }

  lemma CutNormal(x: Executed, n: nat)
    requires x.Done? ==> n <= |x.env|
    ensures EndsNormally(Cut(x, n)) == EndsNormally(x)
  {
  }

  lemma BlockParts(s: Stmt, g: seq<Decl>, env: seq<Value>, st: Ctx, fuel: nat, brk: bool, lp: bool)
    requires s.SBlock? && |env| == |g| && WfStmt(s, g, brk, lp)
    ensures WfAll(s.body, g, brk, lp)
    ensures Exec(s, g, env, fuel) == Cut(ExecAll(s.body, g, env, fuel), |g|)
    ensures var r := LowerAll(s.body, st);
            LowerStmt(s, st).blocks == r.blocks && End(LowerStmt(s, st)) == End(r) &&
            Terminated(LowerStmt(s, st)) == Terminated(r)
    ensures forall f: Function :: Within(LowerStmt(s, st), f) ==> Within(LowerAll(s.body, st), f)
  {
    hide LowerAll;
    hide ExecAll;
    hide WfAll;
    forall f: Function | Within(LowerStmt(s, st), f)
      ensures Within(LowerAll(s.body, st), f)
    {
      WithinTwin(LowerStmt(s, st), LowerAll(s.body, st), f);
    }
  }

  // ----- every statement -----

  lemma {:induction false} SimStmt(m: Module, f: Function, s: Stmt, g: seq<Decl>, env: seq<Value>, slots: seq<Name>,
                                   exits: Exits, st: Ctx, regs: Regs, fuel: nat, brk: bool, lp: bool)
    returns (k: nat, regs1: Regs)
    requires |env| == |g| && Ready(st, g, slots) && Holds(env, slots, regs) && WfStmt(s, g, brk, lp)
    requires StmtFits(s, st, g, slots)
    requires Within(LowerStmt(s, st), f) && Targets(st, f, brk, lp, exits) && !Terminated(st)
    ensures Simulates(m, f, s, g, env, slots, exits, st, regs, fuel, k, regs1)
    decreases fuel, s, 3
  {
    hide *;
    match s {
      case SDecl(_, _) => k, regs1 := SimDecl(m, f, s, g, env, slots, exits, st, regs, fuel, brk, lp);
      case SAssign(_, _, _) => k, regs1 := SimAssign(m, f, s, g, env, slots, exits, st, regs, fuel, brk, lp);
      case SBlock(_) => k, regs1 := SimBlock(m, f, s, g, env, slots, exits, st, regs, fuel, brk, lp);
      case SIf(_, _, _) => k, regs1 := SimIf(m, f, s, g, env, slots, exits, st, regs, fuel, brk, lp);
      case SWhile(_, _) => k, regs1 := SimWhile(m, f, s, g, env, slots, exits, st, regs, fuel, brk, lp);
      case SDo(_, _) => k, regs1 := SimDo(m, f, s, g, env, slots, exits, st, regs, fuel, brk, lp);
      case SFor(_, _, _, _) => k, regs1 := SimFor(m, f, s, g, env, slots, exits, st, regs, fuel, brk, lp);
      case SSwitch(_, _, _) => k, regs1 := SimSwitch(m, f, s, g, env, slots, exits, st, regs, fuel, brk, lp);
      case _ => k, regs1 := SimSimple(m, f, s, g, env, slots, exits, st, regs, fuel, brk, lp);
    }
  }

  // ----- arms: a block that goes on to another block -----

  lemma SpotIs(b: nat, regs: Regs)
    ensures SpotAt(Spot(b, 0), regs) == Config(b, 0, regs)
  {
  }

  lemma RunArm(m: Module, f: Function, s: Stmt, b: nat, a: Ctx, toL: Label, to: nat, g: seq<Decl>, env: seq<Value>,
               slots: seq<Name>, exits: Exits, regs: Regs, fuel: nat, brk: bool, lp: bool)
    returns (k: nat, regs1: Regs)
    requires |env| == |g| && Holds(env, slots, regs) && WfStmt(s, g, brk, lp) && NewName(s, g)
    requires StmtFits(s, a, g, slots)
    requires Arm(f, b, a, LowerStmt(s, a), toL, to, g, slots) && Targets(a, f, brk, lp, exits)
    ensures FollowsStmt(m, f, Cut(Exec(s, g, env, fuel), |g|), slots, slots, exits, Config(b, 0, regs), Spot(to, 0), k,
                        regs1, fuel)
    decreases fuel, s, 4
  {
    hide *;
    var r, x := LowerStmt(s, a), Exec(s, g, env, fuel);
    ArmStart(f, b, a, r, toL, to, g, slots, regs);
    k, regs1 := SimStmt(m, f, s, g, env, slots, exits, a, regs, fuel, brk, lp);
    NormalOf(m, f, s, g, env, slots, exits, a, regs, fuel, k, regs1);
    SlotsGrow(s, slots, a);
    AfterGrows(g, s);
    FollowsCut(m, f, x, |g|, slots, SlotsAfter(s, slots, a), exits, Config(b, 0, regs), End(r), k, regs1, fuel);
    k := LeaveArm(m, f, x, b, a, r, toL, to, g, slots, exits, Config(b, 0, regs), k, regs1, fuel);
  }

  lemma LeaveArm(m: Module, f: Function, x: Executed, b: nat, a: Ctx, r: Ctx, toL: Label, to: nat, g: seq<Decl>,
                 slots: seq<Name>, exits: Exits, c: Config, k: nat, regs1: Regs, fuel: nat)
    returns (k1: nat)
    requires Arm(f, b, a, r, toL, to, g, slots) && (x.Done? ==> |g| <= |x.env|) && (EndsNormally(x) ==> !Terminated(r))
    requires FollowsStmt(m, f, Cut(x, |g|), slots, slots, exits, c, End(r), k, regs1, fuel)
    ensures FollowsStmt(m, f, Cut(x, |g|), slots, slots, exits, c, Spot(to, 0), k1, regs1, fuel)
  {
    hide *;
    CutNormal(x, |g|);
    HereIsEnd(r, regs1);
    SpotIs(to, regs1);
    if EndsNormally(x) { ArmLeave(m, f, b, a, r, toL, to, g, slots, regs1); }
    k1 := FollowsOnward(m, f, Cut(x, |g|), slots, slots, exits, c, End(r), k, regs1, fuel, 1, Spot(to, 0));
  }

  lemma RunArmAll(m: Module, f: Function, ss: seq<Stmt>, b: nat, a: Ctx, toL: Label, to: nat, g: seq<Decl>,
                  env: seq<Value>, slots: seq<Name>,
                  exits: Exits, regs: Regs, fuel: nat, brk: bool, lp: bool)
    returns (k: nat, regs1: Regs)
    requires |env| == |g| && Holds(env, slots, regs) && WfAll(ss, g, brk, lp)
    requires AllFits(ss, a, g, slots)
    requires Arm(f, b, a, LowerAll(ss, a), toL, to, g, slots) && Targets(a, f, brk, lp, exits)
    ensures FollowsStmt(m, f, Cut(ExecAll(ss, g, env, fuel), |g|), slots, slots, exits, Config(b, 0, regs), Spot(to, 0),
                        k, regs1, fuel)
    decreases fuel, ss, 1
  {
    hide *;
    var r, x := LowerAll(ss, a), ExecAll(ss, g, env, fuel);
    ArmStart(f, b, a, r, toL, to, g, slots, regs);
    k, regs1 := SimAll(m, f, ss, g, env, slots, exits, a, regs, fuel, brk, lp);
    FollowsAll(m, f, ss, g, env, slots, exits, a, regs, fuel, k, regs1);
    FollowsCut(m, f, x, |g|, slots, SlotsAll(ss, slots, a), exits, Config(b, 0, regs), End(r), k, regs1, fuel);
    k := LeaveArm(m, f, x, b, a, r, toL, to, g, slots, exits, Config(b, 0, regs), k, regs1, fuel);
  }

  /** A statement that ends by joining at a block that starts with `nop`. */
  lemma Joined(m: Module, f: Function, x: Executed, done: nat, at: Ctx, r: Ctx, slots: seq<Name>, exits: Exits,
               a: Config, k0: nat, c: Config, k: nat, regs1: Regs, fuel: nat, fuel0: nat)
    returns (k1: nat)
    requires Join(f, done, at) && r.blocks == Emit(at, Nop).blocks && r.cur == at.cur && fuel0 <= k0 + fuel
    requires Leads(m, f, a, k0, c) && FollowsStmt(m, f, x, slots, slots, exits, c, Spot(done, 0), k, regs1, fuel)
    ensures FollowsStmt(m, f, x, slots, slots, exits, a, End(r), k1, regs1, fuel0) && !Terminated(r)
  {
    hide *;
    JoinRun(m, f, done, at, regs1);
    SpotIs(done, regs1);
    SameEnd(at, Nop, r);
    var k2 := FollowsOnward(m, f, x, slots, slots, exits, c, Spot(done, 0), k, regs1, fuel, 0, End(r));
    FollowsBefore(m, f, x, slots, slots, exits, a, k0, c, End(r), k2, regs1, fuel, fuel0);
    k1 := k0 + k2;
  }

  lemma SameEnd(at: Ctx, i: Instr, r: Ctx)
    requires r.blocks == Emit(at, i).blocks && r.cur == at.cur
    ensures End(r) == End(Emit(at, i)) && Terminated(r) == Terminated(Emit(at, i))
  {
  }

  // ----- if -----

  lemma IfWf(s: Stmt, g: seq<Decl>, brk: bool, lp: bool)
    requires s.SIf? && WfStmt(s, g, brk, lp)
    ensures WfExpr(s.cond, g) && NewName(s.yes, g) && WfStmt(s.yes, g, brk, lp)
    ensures s.no.Some? ==> NewName(s.no.value, g) && WfStmt(s.no.value, g, brk, lp)
  {
    hide WfExpr;
  }

  lemma IfExec(s: Stmt, g: seq<Decl>, env: seq<Value>, fuel: nat)
    requires s.SIf? && |env| == |g|
    ensures var x := Eval(s.cond, g, env);
            Exec(s, g, env, fuel) ==
            if x.Fault? then Faulted(x.t)
            else if x.v.VInt? then Faulted(TypeError)
            else if x.v.b then Cut(Exec(s.yes, g, x.env, fuel), |g|)
            else if s.no.Some? then Cut(Exec(s.no.value, g, x.env, fuel), |g|) else Done(Normal, x.env)
  {
    hide Eval;
  }

  lemma IfPieces(p: IfPlan, s: Stmt, st: Ctx, f: Function, g: seq<Decl>, slots: seq<Name>)
    requires s.SIf? && IfCode(p, s, st, f, g, slots)
    ensures Arm(f, p.n, p.yesAt, LowerStmt(s.yes, p.yesAt), p.doneL, p.n + 1, g, slots) && SameTargets(st, p.yesAt)
    ensures s.no.Some? ==> Arm(f, p.no, p.noAt, LowerStmt(s.no.value, p.noAt), p.doneL, p.n + 1, g, slots) &&
                           SameTargets(st, p.noAt)
    ensures s.no.None? ==> p.no == p.n + 1
    ensures Join(f, p.n + 1, p.doneAt) && LowerStmt(s, st) == Emit(p.doneAt, Nop) &&
            Emit(p.doneAt, Nop).cur == p.doneAt.cur
    ensures Fork(f, s.cond, st, p.yesL, p.noL, p.n, p.no)
  {
    hide Arm;
    hide SameTargets;
    hide LowerStmt;
    hide Join;
    hide Fork;
  }

  lemma ForkParts(f: Function, e: Expr, a: Ctx, yesL: Label, noL: Label, yes: nat, no: nat)
    requires Fork(f, e, a, yesL, noL, yes, no)
    ensures var (s1, c) := LowerExpr(e, a); Within(Emit(s1, BranchIf(c, yesL, noL)), f)
    ensures IsBlock(f, yes, yesL) && IsBlock(f, no, noL)
  {
    hide LowerExpr;
    hide Within;
    hide IsBlock;
    hide Emit;
  }

  lemma TargetsSame(a: Ctx, b: Ctx, f: Function, brk: bool, lp: bool, x: Exits)
    requires Targets(a, f, brk, lp, x) && SameTargets(a, b)
    ensures Targets(b, f, brk, lp, x)
  {
  }

  lemma SimIf(m: Module, f: Function, s: Stmt, g: seq<Decl>, env: seq<Value>, slots: seq<Name>, exits: Exits,
              st: Ctx, regs: Regs, fuel: nat, brk: bool, lp: bool)
    returns (k: nat, regs1: Regs)
    requires |env| == |g| && Ready(st, g, slots) && Holds(env, slots, regs) && WfStmt(s, g, brk, lp) && s.SIf?
    requires StmtFits(s, st, g, slots)
    requires Within(LowerStmt(s, st), f) && Targets(st, f, brk, lp, exits) && !Terminated(st)
    ensures Simulates(m, f, s, g, env, slots, exits, st, regs, fuel, k, regs1)
    decreases fuel, s, 0
  {
    hide *;
    IfWf(s, g, brk, lp);
    IfExec(s, g, env, fuel);
    var p := IfFacts(s, st, f, g, slots, brk, lp);
    IfPieces(p, s, st, f, g, slots);
    ArmReady(f, p.n, p.yesAt, LowerStmt(s.yes, p.yesAt), p.doneL, p.n + 1, g, slots);
    IfFits(s, st, p.yesAt, p.noAt, g, slots, brk, lp);
    ForkParts(f, s.cond, st, p.yesL, p.noL, p.n, p.no);
    var x := Eval(s.cond, g, env);
    var a := Here(st, regs);
    k, regs1 := RunBranch(m, f, s.cond, g, env, slots, st, regs, p.yesL, p.noL, p.n, p.no);
    if x.Fault? {
      FaultIs(m, f, x.t, s, g, env, slots, exits, st, regs, fuel, k, regs1);
    } else if x.v.VInt? {
      FaultIs(m, f, TypeError, s, g, env, slots, exits, st, regs, fuel, k, regs1);
    } else {
      var k0, r1 := k, regs1;
      var c := Config(if x.v.b then p.n else p.no, 0, r1);
      if x.v.b {
        TargetsSame(st, p.yesAt, f, brk, lp, exits);
        k, regs1 := RunArm(m, f, s.yes, p.n, p.yesAt, p.doneL, p.n + 1, g, x.env, slots, exits, r1, fuel, brk, lp);
      } else if s.no.Some? {
        TargetsSame(st, p.noAt, f, brk, lp, exits);
        k, regs1 := RunArm(m, f, s.no.value, p.no, p.noAt, p.doneL, p.n + 1, g, x.env, slots, exits, r1, fuel, brk, lp);
      } else {
        SpotIs(p.no, r1);
        LeadsSelf(m, f, c);
        k := 0;
        FollowsNormal(m, f, x.env, slots, slots, exits, c, Spot(p.no, 0), 0, r1, fuel);
      }
      k := Joined(m, f, Exec(s, g, env, fuel), p.n + 1, p.doneAt, LowerStmt(s, st), slots, exits, a, k0, c, k, regs1,
                  fuel, fuel);
      CompoundIs(m, f, s, g, env, slots, exits, st, regs, fuel, k, regs1);
    }
  }

  // ----- loops -----

  lemma LoopPieces(p: LoopPlan, s: Stmt, f: Function, g: seq<Decl>, slots: seq<Name>)
    requires IsLoop(s) && LoopCode(p, s, f, g, slots)
    ensures Fork(f, s.cond, p.condAt, p.bodyL, p.doneL, p.body, p.done) && Ready(p.condAt, g, slots)
    ensures forall regs :: Here(p.condAt, regs) == Config(p.cond, 0, regs)
    ensures Arm(f, p.body, p.bodyAt, LowerStmt(s.loop, p.bodyAt), p.againL, p.again, g, slots)
    ensures Targets(p.bodyAt, f, true, true, Exits(p.done, p.again))
    ensures if s.SFor? then Arm(f, p.again, p.stepAt, LowerStmt(s.step, p.stepAt), p.condL, p.cond, g, slots)
            else p.again == p.cond
  {
    hide Fork;
    hide Ready;
    hide Arm;
    hide Targets;
    hide LowerStmt;
  }

  /** What the statements of a loop, seen from inside it, must meet. */
  ghost predicate WfLoop(s: Stmt, g: seq<Decl>)
    requires IsLoop(s)
  {
    WfExpr(s.cond, g) && NewName(s.loop, g) && WfStmt(s.loop, g, true, true) &&
    (s.SFor? ==> !s.step.SDecl? && (s.step.SAssign? || s.step.SExpr?) && WfStmt(s.step, g, false, false))
  }

  lemma LoopWf(s: Stmt, g: seq<Decl>)
    requires IsLoop(s) && WfLoop(s, g)
    ensures (s.SWhile? || s.SDo? || s.SFor?) && WfExpr(s.cond, g)
    ensures NewName(s.loop, g) && WfStmt(s.loop, g, true, true)
    ensures s.SFor? ==> NewName(s.step, g) && WfStmt(s.step, g, false, false)
  {
    hide WfExpr;
    hide WfStmt;
  }

  lemma LoopFitsParts(p: LoopPlan, s: Stmt, g: seq<Decl>, slots: seq<Name>)
    requires IsLoop(s) && LoopFits(p, s, g, slots)
    ensures ExprFits(s.cond, p.condAt, g, slots) && StmtFits(s.loop, p.bodyAt, g, slots)
    ensures s.SFor? ==> StmtFits(s.step, p.stepAt, g, slots)
  {
    hide ExprFits;
    hide StmtFits;
  }

  lemma LoopStep(first: bool, s: Stmt, g: seq<Decl>, env: seq<Value>, fuel: nat)
    requires IsLoop(s) && |env| == |g|
    ensures first ==> Loop(first, s, g, env, fuel) == LoopRound(s, g, env, fuel)
    ensures !first ==> var x := Eval(s.cond, g, env);
                       Loop(first, s, g, env, fuel) ==
                       if x.Fault? then Faulted(x.t)
                       else if x.v.VInt? then Faulted(TypeError)
                       else if !x.v.b then Done(Normal, x.env)
                       else if fuel == 0 then NoFuel
                       else LoopRound(s, g, x.env, fuel - 1)
  {
    hide LoopRound;
    hide Eval;
  }

  /** The loop as one run: from its test (or its body, if `first`) to the block after it. */
  lemma {:induction false} SimLoop(m: Module, f: Function, first: bool, p: LoopPlan, s: Stmt, g: seq<Decl>,
                                   env: seq<Value>, slots: seq<Name>,
                                   exits: Exits, regs: Regs, fuel: nat)
    returns (k: nat, regs1: Regs)
    requires IsLoop(s) && |env| == |g| && Holds(env, slots, regs) && WfLoop(s, g) && LoopCode(p, s, f, g, slots)
    requires LoopFits(p, s, g, slots)
    ensures FollowsStmt(m, f, Loop(first, s, g, env, fuel), slots, slots, exits,
                        Config(if first then p.body else p.cond, 0, regs), Spot(p.done, 0), k, regs1, fuel)
    decreases fuel, s, 1, first, 1
  {
    hide *;
    LoopStep(first, s, g, env, fuel);
    if first {
      k, regs1 := SimRound(m, f, p, s, g, env, slots, exits, regs, fuel);
    } else {
      LoopWf(s, g);
      LoopPieces(p, s, f, g, slots);
      LoopFitsParts(p, s, g, slots);
      ForkParts(f, s.cond, p.condAt, p.bodyL, p.doneL, p.body, p.done);
      var x := Eval(s.cond, g, env);
      var c := Config(p.cond, 0, regs);
      k, regs1 := RunBranch(m, f, s.cond, g, env, slots, p.condAt, regs, p.bodyL, p.doneL, p.body, p.done);
      if x.Fault? {
        FollowsFault(m, f, x.t, slots, slots, exits, c, Spot(p.done, 0), k, regs1, fuel);
      } else if x.v.VInt? {
        FollowsFault(m, f, TypeError, slots, slots, exits, c, Spot(p.done, 0), k, regs1, fuel);
      } else if !x.v.b {
        SpotIs(p.done, regs1);
        FollowsNormal(m, f, x.env, slots, slots, exits, c, Spot(p.done, 0), k, regs1, fuel);
      } else if fuel == 0 {
        FollowsNoFuel(m, f, slots, slots, exits, c, Spot(p.done, 0), k, regs1);
      } else {
        var k0, r1 := k, regs1;
        k, regs1 := SimRound(m, f, p, s, g, x.env, slots, exits, r1, fuel - 1);
        FollowsBefore(m, f, LoopRound(s, g, x.env, fuel - 1), slots, slots, exits,
                      c, k0, Config(p.body, 0, r1), Spot(p.done, 0), k, regs1, fuel - 1, fuel);
        k := k0 + k;
      }
    }
  }

  lemma FollowsNoFuel(m: Module, f: Function, slots: seq<Name>, more: seq<Name>, exits: Exits, c: Config, d: Spot,
                      k: nat, regs1: Regs)
    requires Run(m, f, c, 0) == OutOfFuel
    ensures FollowsStmt(m, f, NoFuel, slots, more, exits, c, d, k, regs1, 0)
  {
  }

  lemma RoundStep(s: Stmt, g: seq<Decl>, env: seq<Value>, fuel: nat)
    requires IsLoop(s) && |env| == |g|
    ensures var x := Cut(Exec(s.loop, g, env, fuel), |g|);
            LoopRound(s, g, env, fuel) ==
            if x.Done? && x.sig.Break? then Done(Normal, x.env)
            else if GoesOn(x) then AfterBody(s, g, x.env, fuel)
            else x
  {
    hide Exec;
    hide Loop;
  }

  predicate GoesOn(x: Executed) {
    x.Done? && (x.sig.Normal? || x.sig.Continue?)
  }

  /** From the end of the body (or `continue`) on: the step of a `for`, then the loop again. */
  function AfterBody(s: Stmt, g: seq<Decl>, env: seq<Value>, fuel: nat): Executed
    requires IsLoop(s) && |env| == |g|
  {
    var y := if s.SFor? then Cut(Exec(s.step, g, env, fuel), |g|) else Done(Normal, env);
    if EndsNormally(y) then Loop(false, s, g, y.env, fuel) else y
  }

  lemma AfterBodyStep(s: Stmt, g: seq<Decl>, env: seq<Value>, fuel: nat)
    requires IsLoop(s) && |env| == |g|
    ensures !s.SFor? ==> AfterBody(s, g, env, fuel) == Loop(false, s, g, env, fuel)
    ensures s.SFor? ==> var y := Cut(Exec(s.step, g, env, fuel), |g|);
                        AfterBody(s, g, env, fuel) == if EndsNormally(y) then Loop(false, s, g, y.env, fuel) else y
  {
    hide Exec;
    hide Loop;
  }

  lemma {:induction false} SimRound(m: Module, f: Function, p: LoopPlan, s: Stmt, g: seq<Decl>, env: seq<Value>,
                                    slots: seq<Name>, exits: Exits, regs: Regs, fuel: nat)
    returns (k: nat, regs1: Regs)
    requires IsLoop(s) && |env| == |g| && Holds(env, slots, regs) && WfLoop(s, g) && LoopCode(p, s, f, g, slots)
    requires LoopFits(p, s, g, slots)
    ensures FollowsStmt(m, f, LoopRound(s, g, env, fuel), slots, slots, exits,
                        Config(p.body, 0, regs), Spot(p.done, 0), k, regs1, fuel)
    decreases fuel, s, 1, true, 0
  {
    hide *;
    LoopWf(s, g);
    LoopPieces(p, s, f, g, slots);
    LoopFitsParts(p, s, g, slots);
    RoundStep(s, g, env, fuel);
    AfterGrows(g, s.loop);
    var x := Cut(Exec(s.loop, g, env, fuel), |g|);
    var inner := Exits(p.done, p.again);
    var c := Config(p.body, 0, regs);
    k, regs1 := RunArm(m, f, s.loop, p.body, p.bodyAt, p.againL, p.again, g, env, slots, inner, regs, fuel, true, true);
    LeaveBody(m, f, x, slots, inner, exits, c, Spot(p.again, 0), Spot(p.done, 0), k, regs1, fuel);
    SpotIs(p.again, regs1);
    SpotIs(p.done, regs1);
    if GoesOn(x) {
      var k0, r1 := k, regs1;
      GoesOnIs(x);
      k, regs1 := SimAgain(m, f, p, s, g, x.env, slots, exits, r1, fuel);
      FollowsBefore(m, f, AfterBody(s, g, x.env, fuel), slots, slots, exits,
                    c, k0, Config(p.again, 0, r1), Spot(p.done, 0), k, regs1, fuel, fuel);
      k := k0 + k;
    }
  }

  lemma GoesOnIs(x: Executed)
    requires GoesOn(x)
    ensures x.Done? && !x.sig.Break?
  {
  }

  /** What the end of the body means for the loop. */
  lemma LeaveBody(m: Module, f: Function, x: Executed, slots: seq<Name>, inner: Exits, exits: Exits,
                  c: Config, again: Spot, done: Spot, k: nat, regs1: Regs, fuel: nat)
    requires FollowsStmt(m, f, x, slots, slots, inner, c, again, k, regs1, fuel)
    requires again == Spot(inner.cont, 0) && done == Spot(inner.brk, 0)
    ensures x.Done? && x.sig.Break? ==>
              FollowsStmt(m, f, Done(Normal, x.env), slots, slots, exits, c, done, k, regs1, fuel)
    ensures GoesOn(x) ==> Leads(m, f, c, k, SpotAt(again, regs1)) && Holds(x.env, slots, regs1)
    ensures !(x.Done? && x.sig.Break?) && !GoesOn(x) ==>
              FollowsStmt(m, f, x, slots, slots, exits, c, done, k, regs1, fuel)
  {
    hide Run;
    hide Leads;
    hide Holds;
  }

  lemma SimAgain(m: Module, f: Function, p: LoopPlan, s: Stmt, g: seq<Decl>, env: seq<Value>, slots: seq<Name>,
                 exits: Exits, regs: Regs, fuel: nat)
    returns (k: nat, regs1: Regs)
    requires IsLoop(s) && |env| == |g| && Holds(env, slots, regs) && WfLoop(s, g) && LoopCode(p, s, f, g, slots)
    requires LoopFits(p, s, g, slots)
    ensures FollowsStmt(m, f, AfterBody(s, g, env, fuel), slots, slots, exits, Config(p.again, 0, regs),
                        Spot(p.done, 0), k, regs1, fuel)
    decreases fuel, s, 1, false, 2
  {
    hide *;
    AfterBodyStep(s, g, env, fuel);
    LoopPieces(p, s, f, g, slots);
    LoopFitsParts(p, s, g, slots);
    LoopWf(s, g);
    if s.SFor? {
      TargetsNone(p.stepAt, f, exits);
      AfterGrows(g, s.step);
      var y := Cut(Exec(s.step, g, env, fuel), |g|);
      var c := Config(p.again, 0, regs);
      k, regs1 := RunArm(m, f, s.step, p.again, p.stepAt, p.condL, p.cond, g, env, slots, exits, regs, fuel, false,
                         false);
      if EndsNormally(y) {
        var k0, r1 := k, regs1;
        NormalParts(m, f, y, slots, slots, exits, c, Spot(p.cond, 0), k, regs1, fuel);
        SpotIs(p.cond, r1);
        k, regs1 := SimLoop(m, f, false, p, s, g, y.env, slots, exits, r1, fuel);
        FollowsBefore(m, f, Loop(false, s, g, y.env, fuel), slots, slots, exits,
                      c, k0, Config(p.cond, 0, r1), Spot(p.done, 0), k, regs1, fuel, fuel);
        k := k0 + k;
      } else {
        Abrupt(m, f, y, slots, slots, slots, exits, c, Spot(p.cond, 0), Spot(p.done, 0), k, regs1, fuel);
      }
    } else {
      k, regs1 := SimLoop(m, f, false, p, s, g, env, slots, exits, regs, fuel);
    }
  }

  lemma NormalParts(m: Module, f: Function, x: Executed, slots: seq<Name>, more: seq<Name>, exits: Exits,
                    c: Config, d: Spot, k: nat, regs1: Regs, fuel: nat)
    requires EndsNormally(x) && FollowsStmt(m, f, x, slots, more, exits, c, d, k, regs1, fuel)
    ensures x.Done? && Leads(m, f, c, k, SpotAt(d, regs1)) && Holds(x.env, more, regs1)
  {
    hide Run;
    hide Leads;
    hide Holds;
  }

  lemma TargetsNone(a: Ctx, f: Function, x: Exits)
    ensures Targets(a, f, false, false, x)
  {
  }

  // ----- the three loop statements -----

  lemma JumpHead(m: Module, f: Function, st: Ctx, g: seq<Decl>, slots: seq<Name>, l: Label, to: nat, regs: Regs)
    requires JumpsTo(f, st, l, to) && Ready(st, g, slots)
    ensures Leads(m, f, Here(st, regs), 1, Config(to, 0, regs))
  {
    hide Run;
    hide Leads;
    hide Binds;
    EmitGoto(m, f, st, Jump(l), regs, l, to);
  }

  lemma ClosedParts(f: Function, s: Stmt, st: Ctx, done: nat, at: Ctx)
    requires Closed(f, s, st, done, at)
    ensures Join(f, done, at) && LowerStmt(s, st) == Emit(at, Nop) && Emit(at, Nop).cur == at.cur
  {
    hide Join;
    hide LowerStmt;
  }

  lemma WhileWf(s: Stmt, g: seq<Decl>, brk: bool, lp: bool)
    requires (s.SWhile? || s.SDo?) && WfStmt(s, g, brk, lp)
    ensures IsLoop(s) && WfLoop(s, g)
  {
    hide WfExpr;
  }

  lemma WhileExec(s: Stmt, g: seq<Decl>, env: seq<Value>, fuel: nat)
    requires (s.SWhile? || s.SDo?) && |env| == |g|
    ensures Exec(s, g, env, fuel) == Loop(s.SDo?, s, g, env, fuel)
  {
    hide Loop;
  }

  lemma SimWhile(m: Module, f: Function, s: Stmt, g: seq<Decl>, env: seq<Value>, slots: seq<Name>, exits: Exits,
                 st: Ctx, regs: Regs, fuel: nat, brk: bool, lp: bool)
    returns (k: nat, regs1: Regs)
    requires |env| == |g| && Ready(st, g, slots) && Holds(env, slots, regs) && WfStmt(s, g, brk, lp) && s.SWhile?
    requires StmtFits(s, st, g, slots)
    requires Within(LowerStmt(s, st), f)
    ensures Simulates(m, f, s, g, env, slots, exits, st, regs, fuel, k, regs1)
    decreases fuel, s, 2
  {
    hide *;
    var p, at := WhileFacts(s, st, f, g, slots, brk, lp);
    ClosedParts(f, s, st, p.done, at);
    WhileWf(s, g, brk, lp);
    LoopPieces(p, s, f, g, slots);
    ArmReady(f, p.body, p.bodyAt, LowerStmt(s.loop, p.bodyAt), p.againL, p.again, g, slots);
    WhileFits(s, st, p, g, slots, brk, lp);
    WhileExec(s, g, env, fuel);
    JumpHead(m, f, st, g, slots, p.condL, p.cond, regs);
    k, regs1 := SimLoop(m, f, false, p, s, g, env, slots, exits, regs, fuel);
    k := Joined(m, f, Exec(s, g, env, fuel), p.done, at, LowerStmt(s, st), slots, exits,
                Here(st, regs), 1, Config(p.cond, 0, regs), k, regs1, fuel, fuel);
    CompoundIs(m, f, s, g, env, slots, exits, st, regs, fuel, k, regs1);
  }

  lemma SimDo(m: Module, f: Function, s: Stmt, g: seq<Decl>, env: seq<Value>, slots: seq<Name>, exits: Exits,
              st: Ctx, regs: Regs, fuel: nat, brk: bool, lp: bool)
    returns (k: nat, regs1: Regs)
    requires |env| == |g| && Ready(st, g, slots) && Holds(env, slots, regs) && WfStmt(s, g, brk, lp) && s.SDo?
    requires StmtFits(s, st, g, slots)
    requires Within(LowerStmt(s, st), f)
    ensures Simulates(m, f, s, g, env, slots, exits, st, regs, fuel, k, regs1)
    decreases fuel, s, 2
  {
    hide *;
    var p, at := DoFacts(s, st, f, g, slots, brk, lp);
    ClosedParts(f, s, st, p.done, at);
    WhileWf(s, g, brk, lp);
    LoopPieces(p, s, f, g, slots);
    ArmReady(f, p.body, p.bodyAt, LowerStmt(s.loop, p.bodyAt), p.againL, p.again, g, slots);
    WhileFits(s, st, p, g, slots, brk, lp);
    WhileExec(s, g, env, fuel);
    JumpHead(m, f, st, g, slots, p.bodyL, p.body, regs);
    k, regs1 := SimLoop(m, f, true, p, s, g, env, slots, exits, regs, fuel);
    k := Joined(m, f, Exec(s, g, env, fuel), p.done, at, LowerStmt(s, st), slots, exits,
                Here(st, regs), 1, Config(p.body, 0, regs), k, regs1, fuel, fuel);
    CompoundIs(m, f, s, g, env, slots, exits, st, regs, fuel, k, regs1);
  }

  lemma ForWf(s: Stmt, g: seq<Decl>, brk: bool, lp: bool)
    requires s.SFor? && WfStmt(s, g, brk, lp)
    ensures (s.start.SDecl? || s.start.SAssign? || s.start.SExpr?) && WfStmt(s.start, g, false, false)
    ensures IsLoop(s) && WfLoop(s, After(g, s.start))
  {
    hide WfExpr;
  }

  lemma ForExec(s: Stmt, g: seq<Decl>, env: seq<Value>, fuel: nat)
    requires s.SFor? && |env| == |g|
    ensures var x := Exec(s.start, g, env, fuel);
            Exec(s, g, env, fuel) ==
            if EndsNormally(x) then Cut(Loop(false, s, After(g, s.start), x.env, fuel), |g|) else x
  {
    hide Loop;
  }

  lemma AfterGrows(g: seq<Decl>, s: Stmt)
    ensures g <= After(g, s)
  {
  }

  lemma SimFor(m: Module, f: Function, s: Stmt, g: seq<Decl>, env: seq<Value>, slots: seq<Name>, exits: Exits,
               st: Ctx, regs: Regs, fuel: nat, brk: bool, lp: bool)
    returns (k: nat, regs1: Regs)
    requires |env| == |g| && Ready(st, g, slots) && Holds(env, slots, regs) && WfStmt(s, g, brk, lp) && s.SFor?
    requires StmtFits(s, st, g, slots)
    requires Within(LowerStmt(s, st), f)
    ensures Simulates(m, f, s, g, env, slots, exits, st, regs, fuel, k, regs1)
    decreases fuel, s, 2
  {
    hide *;
    ForWf(s, g, brk, lp);
    ForExec(s, g, env, fuel);
    ReadyOk(st, g, slots);
    var p, initL, init, initAt, at := ForFacts(s, st, f, g, slots, brk, lp);
    ClosedParts(f, s, st, p.done, at);
    JumpHead(m, f, st, g, slots, initL, init, regs);
    var h, more := After(g, s.start), SlotsAfter(s.start, slots, initAt);
    LoopPieces(p, s, f, h, more);
    ArmReady(f, init, initAt, LowerStmt(s.start, initAt), p.condL, p.cond, g, slots);
    ArmReady(f, p.body, p.bodyAt, LowerStmt(s.loop, p.bodyAt), p.againL, p.again, h, more);
    ForFits(s, st, initAt, p, g, slots, brk, lp);
    var a, c := Here(st, regs), Config(init, 0, regs);
    var started := LowerStmt(s.start, initAt);
    ArmStart(f, init, initAt, started, p.condL, p.cond, g, slots, regs);
    TargetsNone(initAt, f, exits);
    k, regs1 := SimStmt(m, f, s.start, g, env, slots, exits, initAt, regs, fuel, false, false);
    var x := Exec(s.start, g, env, fuel);
    NormalOf(m, f, s.start, g, env, slots, exits, initAt, regs, fuel, k, regs1);
    if EndsNormally(x) {
      var k0, r1 := k, regs1;
      ArmLeave(m, f, init, initAt, started, p.condL, p.cond, g, slots, r1);
      LeadsTrans(m, f, c, k0, Here(started, r1), 1, Config(p.cond, 0, r1));
      LeadsTrans(m, f, a, 1, c, k0 + 1, Config(p.cond, 0, r1));
      k, regs1 := SimLoop(m, f, false, p, s, h, x.env, more, exits, r1, fuel);
      var y := Loop(false, s, h, x.env, fuel);
      SlotsGrow(s.start, slots, initAt);
      AfterGrows(g, s.start);
      FollowsNarrow(m, f, y, more, more, slots, exits, Config(p.cond, 0, r1), Spot(p.done, 0), k, regs1, fuel);
      FollowsCut(m, f, y, |g|, slots, more, exits, Config(p.cond, 0, r1), Spot(p.done, 0), k, regs1, fuel);
      k := Joined(m, f, Exec(s, g, env, fuel), p.done, at, LowerStmt(s, st), slots, exits,
                  a, 1 + (k0 + 1), Config(p.cond, 0, r1), k, regs1, fuel, fuel);
    } else {
      Abrupt(m, f, x, slots, more, slots, exits, c, End(started), Spot(p.done, 0), k, regs1, fuel);
      k := Joined(m, f, Exec(s, g, env, fuel), p.done, at, LowerStmt(s, st), slots, exits, a, 1, c, k, regs1, fuel,
                  fuel);
    }
    CompoundIs(m, f, s, g, env, slots, exits, st, regs, fuel, k, regs1);
  }

  // ----- switch -----

  lemma CaseParts(p: SwitchPlan, s: Stmt, i: nat, st: Ctx, t: Ctx, f: Function, g: seq<Decl>, slots: seq<Name>)
    requires s.SSwitch? && i < |s.cases| && 2 * |s.cases| <= |p.labels| && CaseCode(p, s, i, st, t, f, g, slots)
    ensures var a, b := At(st, p.n + 2 * i), BodyAt(p, s, i, st);
            (forall regs :: Here(a, regs) == Config(p.n + 2 * i, 0, regs)) && Ready(a, g, slots) &&
            a.tempId == st.tempId &&
            Within(Compared(p, s, i, st), f) &&
            IsBlock(f, p.n + 2 * i + 1, p.labels[2 * i + 1]) &&
            IsBlock(f, CaseBlock(p, s, i + 1), OtherLabel(p, s, i)) &&
            Arm(f, p.n + 2 * i + 1, b, LowerAll(s.cases[i].body, b), p.doneL, p.done, g, slots) && SameTargets(t, b)
  {
    hide Ready;
    hide Within;
    hide IsBlock;
    hide Arm;
    hide SameTargets;
    hide Compared;
    hide CaseBlock;
    hide OtherLabel;
    hide BodyAt;
  }

  lemma ComparedIs(p: SwitchPlan, s: Stmt, i: nat, st: Ctx)
    requires s.SSwitch? && i < |s.cases| && 2 * |s.cases| <= |p.labels|
    ensures var (s1, w) := LowerExpr(s.cases[i].value, At(st, p.n + 2 * i));
            Compared(p, s, i, st) ==
            Emit(Emit(NextTemp(s1).0, Bin(Temp(s1.tempId + 1), Eq, p.v, w)),
                 BranchIf(Temp(s1.tempId + 1), p.labels[2 * i + 1], OtherLabel(p, s, i)))
  {
    hide LowerExpr;
    hide Emit;
    hide OtherLabel;
  }

  lemma EqStep(dst: Name, v: Name, w: Name, regs: Regs)
    requires v in regs && w in regs
    ensures Step(Bin(dst, Eq, v, w), regs) == Write(dst, Operate(Eq, regs[v], regs[w]), regs)
    ensures var c := Operate(Eq, regs[v], regs[w]); c.Good? ==> c.v.VBool?
  {
  }

  /** One comparison of the chain. */
  lemma RunCompare(m: Module, f: Function, p: SwitchPlan, s: Stmt, i: nat, value: Value, g: seq<Decl>, env: seq<Value>,
                   slots: seq<Name>, st: Ctx, t: Ctx, regs: Regs)
    returns (k: nat, regs1: Regs)
    requires s.SSwitch? && i < |s.cases| && 2 * |s.cases| <= |p.labels| && CaseCode(p, s, i, st, t, f, g, slots)
    requires |env| == |g| && Holds(env, slots, regs) && WfExpr(s.cases[i].value, g)
    requires ExprFits(s.cases[i].value, At(st, p.n + 2 * i), g, slots)
    requires p.v.Temp? && p.v.id <= st.tempId && p.v in regs && regs[p.v] == value
    ensures var x := Eval(s.cases[i].value, g, env);
            var c := Config(p.n + 2 * i, 0, regs);
            if x.Fault? then Ends(m, f, c, k, Trapped(x.t))
            else
              var same := Operate(Eq, value, x.v);
              if same.Bad? then Ends(m, f, c, k, Trapped(same.t))
              else
                Leads(m, f, c, k, Config(if same.v == VBool(true) then p.n + 2 * i + 1
                                         else CaseBlock(p, s, i + 1), 0, regs1)) &&
                Holds(x.env, slots, regs1) && p.v in regs1 && regs1[p.v] == value
  {
    hide *;
    CaseParts(p, s, i, st, t, f, g, slots);
    ComparedIs(p, s, i, st);
    var e := s.cases[i].value;
    var a := At(st, p.n + 2 * i);
    var (s1, w) := LowerExpr(e, a);
    var eq := Temp(s1.tempId + 1);
    var bin := Bin(eq, Eq, p.v, w);
    var s3 := Emit(NextTemp(s1).0, bin);
    var branch := BranchIf(eq, p.labels[2 * i + 1], OtherLabel(p, s, i));
    var c := Config(p.n + 2 * i, 0, regs);
    ReadyExpr(e, a, g, slots);
    ReadyOk(a, g, slots);
    TempGrows(s1, 1);
    EmitTempGrows(s1, bin);
    GrowsTrans(a, s1, s3);
    EmitGrows(s3, branch);
    WithinBefore(s3, Emit(s3, branch), f);
    GrowsSelf(s1);
    WithinBefore(s1, s3, f);
    k, regs1 := RunExpr(m, f, e, g, env, slots, a, regs);
    var x := Eval(e, g, env);
    if x.Fault? {
      FaultOf(m, f, x, slots, a, s1, w, regs, k, regs1);
    } else {
      var k1, r1 := k, regs1;
      HoldsOf(m, f, x, slots, a, s1, w, regs, k1, r1);
      KeptTemp(a.tempId, regs, r1, p.v);
      EqStep(eq, p.v, w, r1);
      var same := Operate(Eq, value, x.v);
      CountsOf(a, s1);
      var r2 := FollowsWrite(m, f, slots, a.varId, x, a, s1, w, regs, k1, r1, bin, same);
      regs1 := r2;
      if same.Bad? {
        FaultOf(m, f, Fault(same.t), slots, a, s3, eq, regs, k1, r2);
      } else {
        HoldsOf(m, f, Val(same.v, x.env), slots, a, s3, eq, regs, k1, r2);
        KeptTemp(a.tempId, regs, r2, p.v);
        BranchGoto(eq, p.labels[2 * i + 1], OtherLabel(p, s, i), r2);
        var hit := same.v == VBool(true);
        var to := if hit then p.n + 2 * i + 1 else CaseBlock(p, s, i + 1);
        var l := if hit then p.labels[2 * i + 1] else OtherLabel(p, s, i);
        BlockTag(f, to, l);
        EmitGoto(m, f, s3, branch, r2, l, to);
        LeadsTrans(m, f, c, k1, Here(s3, r2), 1, Config(to, 0, r2));
        k := k1 + 1;
      }
    }
  }

  lemma CasesExec(v: Value, s: Stmt, i: nat, g: seq<Decl>, env: seq<Value>, fuel: nat)
    requires s.SSwitch? && i <= |s.cases| && |env| == |g|
    ensures var r := Cut(ExecCases(v, s, i, g, env, fuel), |g|);
            if i == |s.cases| then
              r == if s.default.Otherwise? then Cut(ExecAll(s.default.body, g, env, fuel), |g|) else Done(Normal, env)
            else
              var x := Eval(s.cases[i].value, g, env);
              if x.Fault? then r == Faulted(x.t)
              else
                var same := Operate(Eq, v, x.v);
                if same.Bad? then r == Faulted(same.t)
                else if same.v == VBool(true) then r == Cut(ExecAll(s.cases[i].body, g, x.env, fuel), |g|)
                else r == Cut(ExecCases(v, s, i + 1, g, x.env, fuel), |g|)
  {
    hide ExecAll;
    hide Eval;
    hide Operate;
  }

  lemma {:induction false} SimCases(m: Module, f: Function, p: SwitchPlan, s: Stmt, i: nat, value: Value, g: seq<Decl>,
                                    env: seq<Value>, slots: seq<Name>,
                                    inner: Exits, st: Ctx, t: Ctx, dfltAt: Ctx, regs: Regs, fuel: nat, brk: bool,
                                    lp: bool)
    returns (k: nat, regs1: Regs)
    requires s.SSwitch? && i <= |s.cases| && 2 * |s.cases| <= |p.labels| && CasesCode(p, s, i, st, t, f, g, slots)
    requires |env| == |g| && Holds(env, slots, regs) && WfStmt(s, g, brk, lp) && Targets(t, f, true, lp, inner)
    requires CasesFit(s, i, st, g, slots) && (s.default.Otherwise? ==> AllFits(s.default.body, dfltAt, g, slots))
    requires p.v.Temp? && p.v.id <= st.tempId && p.v in regs && regs[p.v] == value
    requires if s.default.Otherwise? then
               Arm(f, p.default, dfltAt, LowerAll(s.default.body, dfltAt), p.doneL, p.done, g, slots) &&
               SameTargets(t, dfltAt)
             else p.default == p.done
    ensures FollowsStmt(m, f, Cut(ExecCases(value, s, i, g, env, fuel), |g|), slots, slots, inner,
                        Config(CaseBlock(p, s, i), 0, regs), Spot(p.done, 0), k, regs1, fuel)
    decreases fuel, s, 0, |s.cases| - i
  {
    hide *;
    k, regs1 := 0, regs;
    CasesExec(value, s, i, g, env, fuel);
    CaseBlockIs(p, s, i);
    var c := Config(CaseBlock(p, s, i), 0, regs);
    if i == |s.cases| {
      if s.default.Otherwise? {
        SwitchWf(s, g, brk, lp);
        TargetsSame(t, dfltAt, f, true, lp, inner);
        k, regs1 := RunArmAll(m, f, s.default.body, p.default, dfltAt, p.doneL, p.done, g, env, slots, inner, regs,
                              fuel, true, lp);
      } else {
        SpotIs(p.done, regs);
        LeadsSelf(m, f, c);
        FollowsNormal(m, f, env, slots, slots, inner, c, Spot(p.done, 0), 0, regs, fuel);
      }
    } else {
      CasesCodeStep(p, s, i, st, t, f, g, slots);
      CaseParts(p, s, i, st, t, f, g, slots);
      CaseWf(s, i, g, brk, lp);
      CaseFits(p, s, i, st, t, f, g, slots, brk, lp);
      k, regs1 := RunCompare(m, f, p, s, i, value, g, env, slots, st, t, regs);
      var x := Eval(s.cases[i].value, g, env);
      if x.Fault? {
        FollowsFault(m, f, x.t, slots, slots, inner, c, Spot(p.done, 0), k, regs1, fuel);
      } else {
        var same := Operate(Eq, value, x.v);
        if same.Bad? {
          FollowsFault(m, f, same.t, slots, slots, inner, c, Spot(p.done, 0), k, regs1, fuel);
        } else {
          var k0, r1 := k, regs1;
          var b := BodyAt(p, s, i, st);
          var to := if same.v == VBool(true) then p.n + 2 * i + 1 else CaseBlock(p, s, i + 1);
          if same.v == VBool(true) {
            TargetsSame(t, b, f, true, lp, inner);
            k, regs1 := RunArmAll(m, f, s.cases[i].body, p.n + 2 * i + 1, b, p.doneL, p.done, g, x.env, slots, inner,
                                  r1, fuel, true, lp);
          } else {
            k, regs1 := SimCases(m, f, p, s, i + 1, value, g, x.env, slots, inner, NextCase(p, s, i, st), t, dfltAt, r1,
                                 fuel, brk, lp);
          }
          FollowsBefore(m, f, Cut(ExecCases(value, s, i, g, env, fuel), |g|), slots, slots, inner,
                        c, k0, Config(to, 0, r1), Spot(p.done, 0), k, regs1, fuel, fuel);
          k := k0 + k;
        }
      }
    }
  }

  lemma CaseBlockIs(p: SwitchPlan, s: Stmt, i: nat)
    requires s.SSwitch? && i <= |s.cases|
    ensures CaseBlock(p, s, i) == if i == |s.cases| then p.default else p.n + 2 * i
  {
  }

  /** `break` leaves the `switch` normally; other ends pass through. */
  lemma FollowsLeave(m: Module, f: Function, x: Executed, n: nat, slots: seq<Name>, inner: Exits, exits: Exits,
                     c: Config, k: nat, regs1: Regs, fuel: nat)
    requires x.Done? ==> n <= |x.env|
    requires FollowsStmt(m, f, Cut(x, n), slots, slots, inner, c, Spot(inner.brk, 0), k, regs1, fuel) &&
             inner.cont == exits.cont
    ensures FollowsStmt(m, f, LeaveSwitch(x, n), slots, slots, exits, c, Spot(inner.brk, 0), k, regs1, fuel)
  {
    hide Run;
    hide Leads;
    hide Holds;
  }

  lemma SwitchExec(s: Stmt, g: seq<Decl>, env: seq<Value>, fuel: nat)
    requires s.SSwitch? && |env| == |g|
    ensures var x := Eval(s.e, g, env);
            Exec(s, g, env, fuel) == if x.Fault? then Faulted(x.t)
            else LeaveSwitch(ExecCases(x.v, s, 0, g, x.env, fuel), |g|)
  {
    hide Eval;
    hide ExecCases;
    hide LeaveSwitch;
  }

  lemma SwitchParts(p: SwitchPlan, s: Stmt, st: Ctx, first: Ctx, dfltAt: Ctx, at: Ctx, f: Function, g: seq<Decl>,
                    slots: seq<Name>)
    returns (t: Ctx)
    requires s.SSwitch? && SwitchCode(p, s, st, first, dfltAt, at, f, g, slots)
    ensures var (s1, v) := LowerExpr(s.e, st);
            t == s1.(labelId := s1.labelId + 1, breaks := s1.breaks + [p.doneL]) &&
            p.v == v && |p.labels| > 0 && 2 * |s.cases| <= |p.labels| && SameTargets(st, s1) &&
            first.tempId == s1.tempId && JumpsTo(f, s1, p.labels[0], CaseBlock(p, s, 0)) &&
            CasesCode(p, s, 0, first, t, f, g, slots) && IsBlock(f, p.done, p.doneL)
    ensures if s.default.Otherwise? then
              Arm(f, p.default, dfltAt, LowerAll(s.default.body, dfltAt), p.doneL, p.done, g, slots) &&
              SameTargets(t, dfltAt)
            else p.default == p.done
    ensures Join(f, p.done, at) && LowerStmt(s, st).blocks == Emit(at, Nop).blocks && LowerStmt(s, st).cur == at.cur
  {
    hide LowerExpr;
    hide SameTargets;
    hide JumpsTo;
    hide CasesCode;
    hide Arm;
    hide Join;
    hide LowerStmt;
    hide LowerAll;
    hide Emit;
    hide IsBlock;
    var (s1, v) := LowerExpr(s.e, st);
    t := s1.(labelId := s1.labelId + 1, breaks := s1.breaks + [p.doneL]);
  }

  lemma SwitchTargets(st: Ctx, s1: Ctx, t: Ctx, p: SwitchPlan, f: Function, brk: bool, lp: bool, exits: Exits)
    requires Targets(st, f, brk, lp, exits) && SameTargets(st, s1) && IsBlock(f, p.done, p.doneL)
    requires t.breaks == s1.breaks + [p.doneL] && t.loops == s1.loops
    ensures Targets(t, f, true, lp, Exits(p.done, exits.cont))
  {
  }

  lemma SimSwitch(m: Module, f: Function, s: Stmt, g: seq<Decl>, env: seq<Value>, slots: seq<Name>, exits: Exits,
                  st: Ctx, regs: Regs, fuel: nat, brk: bool, lp: bool)
    returns (k: nat, regs1: Regs)
    requires |env| == |g| && Ready(st, g, slots) && Holds(env, slots, regs) && WfStmt(s, g, brk, lp) && s.SSwitch?
    requires StmtFits(s, st, g, slots)
    requires Within(LowerStmt(s, st), f) && Targets(st, f, brk, lp, exits)
    ensures Simulates(m, f, s, g, env, slots, exits, st, regs, fuel, k, regs1)
    decreases fuel, s, 2
  {
    hide *;
    SwitchWf(s, g, brk, lp);
    SwitchExec(s, g, env, fuel);
    var p, first, dfltAt, at := SwitchFacts(s, st, f, g, slots, brk, lp);
    var t := SwitchParts(p, s, st, first, dfltAt, at, f, g, slots);
    SwitchFits(p, s, st, first, dfltAt, t, f, g, slots, brk, lp);
    var (s1, v) := LowerExpr(s.e, st);
    var a := Here(st, regs);
    ReadyExpr(s.e, st, g, slots);
    JumpsWithin(f, s1, p.labels[0], CaseBlock(p, s, 0));
    SwitchTargets(st, s1, t, p, f, brk, lp, exits);
    k, regs1 := RunExpr(m, f, s.e, g, env, slots, st, regs);
    var x := Eval(s.e, g, env);
    if x.Fault? {
      FaultOf(m, f, x, slots, st, s1, v, regs, k, regs1);
      FaultIs(m, f, x.t, s, g, env, slots, exits, st, regs, fuel, k, regs1);
    } else {
      var k0, r1 := k, regs1;
      HoldsOf(m, f, x, slots, st, s1, v, regs, k0, r1);
      var c := Config(CaseBlock(p, s, 0), 0, r1);
      JumpHead(m, f, s1, g, slots, p.labels[0], CaseBlock(p, s, 0), r1);
      LeadsTrans(m, f, a, k0, Here(s1, r1), 1, c);
      var inner := Exits(p.done, exits.cont);
      k, regs1 := SimCases(m, f, p, s, 0, x.v, g, x.env, slots, inner, first, t, dfltAt, r1, fuel, brk, lp);
      FollowsLeave(m, f, ExecCases(x.v, s, 0, g, x.env, fuel), |g|, slots, inner, exits, c, k, regs1, fuel);
      k := Joined(m, f, Exec(s, g, env, fuel), p.done, at, LowerStmt(s, st), slots, exits, a, k0 + 1, c, k, regs1, fuel,
                  fuel);
      CompoundIs(m, f, s, g, env, slots, exits, st, regs, fuel, k, regs1);
    }
  }

  lemma JumpsWithin(f: Function, s1: Ctx, l: Label, to: nat)
    requires JumpsTo(f, s1, l, to) && Ok(s1)
    ensures Within(s1, f)
  {
    KeptEmit(s1, Jump(l));
    hide Emit;
    WithinKept(s1, Emit(s1, Jump(l)), f);
  }
}
