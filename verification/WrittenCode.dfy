/** Where the finished graph has the pieces of a lowered compound statement. */
module WrittenCode {
  import opened Options
  import opened Ir
  import opened Source
  import opened Lowering
  import opened WorkingGraph
  import opened Static
  import opened Names
  import opened StmtShape
  import opened ExprMeaning
  import opened StmtFollows

  /** Nothing has been emitted into block `b` yet. */
  ghost predicate Idle(st: Ctx, b: nat) {
    b < |st.blocks| && st.blocks[b].instrs == []
  }

  /** A condition lowered at `a` branches to blocks `yes` and `no`. */
  ghost predicate Fork(f: Function, e: Expr, a: Ctx, yesL: Label, noL: Label, yes: nat, no: nat) {
    var (s1, c) := LowerExpr(e, a);
    Within(Emit(s1, BranchIf(c, yesL, noL)), f) && IsBlock(f, yes, yesL) && IsBlock(f, no, noL)
  }

  /** Block `b` starts with the code lowered from `a` to `r`, which goes on to block `to`. */
  ghost predicate Arm(f: Function, b: nat, a: Ctx, r: Ctx, toL: Label, to: nat, g: seq<Decl>, slots: seq<Name>) {
    a.cur == b && Idle(a, b) && Ready(a, g, slots) && Ok(r) &&
    Within(r, f) && Within(JumpUnlessTerminated(r, toL), f) && IsBlock(f, to, toL)
  }

  /** Block `b` starts with the `nop` that closes a statement. */
  ghost predicate Join(f: Function, b: nat, a: Ctx) {
    a.cur == b && Idle(a, b) && Ok(a) && Within(Emit(a, Nop), f)
  }

  // ----- what the pieces give a run -----

  lemma ArmStart(f: Function, b: nat, a: Ctx, r: Ctx, toL: Label, to: nat, g: seq<Decl>, slots: seq<Name>, regs: Regs)
    requires Arm(f, b, a, r, toL, to, g, slots)
    ensures Here(a, regs) == Config(b, 0, regs) && Ready(a, g, slots) && Within(r, f) && !Terminated(a)
    ensures |slots| == |g|
  {
    ReadyOk(a, g, slots);
  }

  lemma ArmLeave(m: Module, f: Function, b: nat, a: Ctx, r: Ctx, toL: Label, to: nat, g: seq<Decl>, slots: seq<Name>,
                 regs: Regs)
    requires Arm(f, b, a, r, toL, to, g, slots) && !Terminated(r)
    ensures Leads(m, f, Here(r, regs), 1, Config(to, 0, regs))
  {
    hide Run;
    hide Leads;
    EmitGoto(m, f, r, Jump(toL), regs, toL, to);
  }

  lemma JoinRun(m: Module, f: Function, b: nat, a: Ctx, regs: Regs)
    requires Join(f, b, a)
    ensures Leads(m, f, Config(b, 0, regs), 0, SpotAt(End(Emit(a, Nop)), regs)) && !Terminated(Emit(a, Nop))
  {
    hide Run;
    hide Leads;
    EmitStep(m, f, a, Nop, regs, regs);
    EmitLive(a, Nop);
    assert Here(a, regs) == Config(b, 0, regs);
  }

  // ----- forwards: idle blocks stay idle; backwards: the graph contains every stage -----

  lemma IdleKept(a: Ctx, b: Ctx, i: nat)
    requires Kept(a, b) && Idle(a, i) && i != a.cur
    ensures Idle(b, i)
  {
  }

  lemma WithinKept(a: Ctx, b: Ctx, f: Function)
    requires Kept(a, b) && Within(b, f)
    ensures Within(a, f)
  {
  }

  lemma WithinAt(a: Ctx, k: nat, f: Function)
    ensures Within(At(a, k), f) == Within(a, f) && At(a, k).blocks == a.blocks
    ensures forall b :: Idle(At(a, k), b) == Idle(a, b)
  {
  }

  lemma KeptEmit(a: Ctx, i: Instr)
    requires Ok(a)
    ensures Kept(a, Emit(a, i)) && |Emit(a, i).blocks| == |a.blocks| && Emit(a, i).cur == a.cur &&
            SameTargets(a, Emit(a, i))
  {
  }

  lemma KeptJump(a: Ctx, l: Label)
    requires Ok(a)
    ensures Kept(a, JumpUnlessTerminated(a, l))
  {
  }

  lemma KeptOf(a: Ctx, b: Ctx)
    requires Grows(a, b)
    ensures Kept(a, b) && SameTargets(a, b) && Stays(a, b.cur) && |a.blocks| <= |b.blocks|
  {
  }

  /** The opened blocks are empty and carry the labels that were drawn. */
  ghost predicate Opened(a: Ctx, r: Ctx, labels: seq<Label>) {
    |r.blocks| == |a.blocks| + |labels| &&
    forall i :: 0 <= i < |labels| ==> r.blocks[|a.blocks| + i] == Block(labels[i], [])
  }

  lemma OpenTook(st: Ctx, a: Ctx, prefixes: seq<string>, g: seq<Decl>, slots: seq<Name>)
    requires Went(st, a, g, slots)
    ensures var (r, labels) := OpenBlocks(a, prefixes);
            Went(st, r, g, slots) && Kept(a, r) && SameTargets(a, r) && r.cur == a.cur &&
            |r.blocks| == |a.blocks| + |prefixes| && r.types == a.types &&
            Opened(a, r, labels)
  {
    hide *;
    ReadyOf(st, a, g, slots);
    OpenWent(st, a, prefixes, g, slots);
    OpenBlocksGrows(a, prefixes);
    OpenBlocksIs(a, prefixes);
    KeptOf(a, OpenBlocks(a, prefixes).0);
    OpenedAt(a, prefixes);
  }

  lemma OpenedAt(a: Ctx, prefixes: seq<string>)
    ensures Opened(a, OpenBlocks(a, prefixes).0, OpenBlocks(a, prefixes).1)
  {
    hide OpenBlocks;
    OpenBlocksIs(a, prefixes);
  }

  lemma OpenedBlock(a: Ctx, r: Ctx, labels: seq<Label>, i: nat, f: Function)
    requires Opened(a, r, labels) && i < |labels|
    ensures Idle(r, |a.blocks| + i)
    ensures Within(r, f) ==> IsBlock(f, |a.blocks| + i, labels[i])
  {
    assert r.blocks[|a.blocks| + i] == Block(labels[i], []);
  }

  lemma ExprTook(st: Ctx, a: Ctx, e: Expr, g: seq<Decl>, slots: seq<Name>)
    requires Went(st, a, g, slots)
    ensures var r := LowerExpr(e, a).0;
            Went(st, r, g, slots) && Kept(a, r) && SameTargets(a, r) && Stays(a, r.cur) && |a.blocks| <= |r.blocks| &&
            r.types == a.types
  {
    hide *;
    ReadyOf(st, a, g, slots);
    ExprWent(st, a, e, g, slots);
    LowerExprGrows(e, a);
    KeptOf(a, LowerExpr(e, a).0);
  }

  lemma EmitTook(st: Ctx, a: Ctx, i: Instr, g: seq<Decl>, slots: seq<Name>)
    requires Went(st, a, g, slots)
    ensures var r := Emit(a, i);
            Went(st, r, g, slots) && Kept(a, r) && SameTargets(a, r) && r.cur == a.cur && |r.blocks| == |a.blocks| &&
            r.types == a.types
  {
    hide *;
    ReadyOf(st, a, g, slots);
    EmitIs(a, i);
    EmitWent(st, a, i, g, slots);
    KeptEmit(a, i);
  }

  /** A body and the jump after it. */
  lemma ArmTook(st: Ctx, a: Ctx, s: Stmt, toL: Label, g: seq<Decl>, slots: seq<Name>, brk: bool, lp: bool)
    requires Went(st, a, g, slots) && WfStmt(s, g, brk, lp) && NewName(s, g)
    ensures var r := LowerStmt(s, a);
            var j := JumpUnlessTerminated(r, toL);
            Ok(r) && Went(st, j, g, slots) && Kept(a, j) && SameTargets(a, j) && |a.blocks| <= |j.blocks|
  {
    hide *;
    var r := LowerStmt(s, a);
    ReadyOf(st, a, g, slots);
    StmtThen(st, a, s, g, slots, brk, lp);
    StmtWent(s, a, g, slots, brk, lp);
    ReadyOf(a, r, After(g, s), SlotsAfter(s, slots, a));
    JumpThen(a, r, toL);
    JumpWent(st, r, toL, g, slots);
    KeptOf(a, JumpUnlessTerminated(r, toL));
  }

  lemma JumpTypes(a: Ctx, l: Label)
    ensures JumpUnlessTerminated(a, l).types == a.types
  {
  }

  /** The branch is emitted after the blocks were opened, the condition before. */
  lemma ForkOpen(f: Function, s1: Ctx, prefixes: seq<string>, i: Instr)
    requires Ok(s1) && Within(Emit(OpenBlocks(s1, prefixes).0, i), f)
    ensures Within(Emit(s1, i), f)
  {
    OpenBlocksIs(s1, prefixes);
  }

  lemma ForkAt(f: Function, e: Expr, a: Ctx, yesL: Label, noL: Label, yes: nat, no: nat)
    requires var (s1, c) := LowerExpr(e, a); Within(Emit(s1, BranchIf(c, yesL, noL)), f)
    requires IsBlock(f, yes, yesL) && IsBlock(f, no, noL)
    ensures Fork(f, e, a, yesL, noL, yes, no)
  {
    hide LowerExpr;
    hide Within;
    hide Emit;
  }

  lemma ArmAt(st: Ctx, f: Function, b: nat, a: Ctx, r: Ctx, toL: Label, to: nat, g: seq<Decl>, slots: seq<Name>)
    requires Went(st, a, g, slots) && a.cur == b && Idle(a, b) && Ok(r)
    requires Within(JumpUnlessTerminated(r, toL), f) && IsBlock(f, to, toL)
    ensures Arm(f, b, a, r, toL, to, g, slots)
  {
    hide Ready;
    KeptJump(r, toL);
    WithinKept(r, JumpUnlessTerminated(r, toL), f);
  }

  // ----- if -----

  datatype IfPlan = IfPlan(n: nat, yesL: Label, doneL: Label, noL: Label, no: nat, yesAt: Ctx, noAt: Ctx, doneAt: Ctx)

  ghost predicate IfCode(p: IfPlan, s: Stmt, st: Ctx, f: Function, g: seq<Decl>, slots: seq<Name>)
    requires s.SIf?
  {
    Fork(f, s.cond, st, p.yesL, p.noL, p.n, p.no) &&
    Arm(f, p.n, p.yesAt, LowerStmt(s.yes, p.yesAt), p.doneL, p.n + 1, g, slots) && SameTargets(st, p.yesAt) &&
    (if s.no.Some? then
       Arm(f, p.no, p.noAt, LowerStmt(s.no.value, p.noAt), p.doneL, p.n + 1, g, slots) && SameTargets(st, p.noAt)
     else p.no == p.n + 1) &&
    Join(f, p.n + 1, p.doneAt) && LowerStmt(s, st) == Emit(p.doneAt, Nop)
  }

  lemma SameTargetsTrans(a: Ctx, b: Ctx, c: Ctx)
    requires SameTargets(a, b) && SameTargets(b, c)
    ensures SameTargets(a, c)
  {
  }

  lemma JoinAt(st: Ctx, f: Function, b: nat, a: Ctx, g: seq<Decl>, slots: seq<Name>)
    requires Went(st, a, g, slots) && a.cur == b && Idle(a, b) && Within(Emit(a, Nop), f)
    ensures Join(f, b, a)
  {
    hide Binds;
  }

  lemma OkOf(st: Ctx, a: Ctx, g: seq<Decl>, slots: seq<Name>)
    requires Went(st, a, g, slots)
    ensures Ok(a) && a.cur < |a.blocks| && |st.blocks| <= |a.blocks|
  {
    hide Binds;
  }

  /** A body lowered into the idle block `k`, going on to block `to`. */
  lemma ArmPlaced(st: Ctx, a: Ctx, k: nat, s: Stmt, toL: Label, to: nat, g: seq<Decl>, slots: seq<Name>, brk: bool,
                  lp: bool, f: Function)
    requires Went(st, a, g, slots) && SameTargets(st, a) && |st.blocks| <= k < |a.blocks| && Idle(a, k)
    requires WfStmt(s, g, brk, lp) && NewName(s, g)
    ensures var y := At(a, k);
            var r := LowerStmt(s, y);
            var j := JumpUnlessTerminated(r, toL);
            Went(st, j, g, slots) && SameTargets(st, y) && SameTargets(st, j) && |a.blocks| <= |j.blocks| &&
            y.types == a.types && j.types == r.types &&
            (forall i :: Idle(a, i) && i != k ==> Idle(j, i)) && (Within(j, f) ==> Within(a, f)) &&
            (Within(j, f) && IsBlock(f, to, toL) ==> Arm(f, k, y, r, toL, to, g, slots))
  {
    hide Went;
    hide Within;
    hide SameTargets;
    hide Kept;
    hide Arm;
    hide IsBlock;
    hide LowerStmt;
    hide JumpUnlessTerminated;
    hide WfStmt;
    MoveWent(st, a, k, g, slots);
    MoveTargets(st, a, k);
    WithinAt(a, k, f);
    var y := At(a, k);
    ArmTook(st, y, s, toL, g, slots, brk, lp);
    var r := LowerStmt(s, y);
    var j := JumpUnlessTerminated(r, toL);
    JumpTypes(r, toL);
    SameTargetsTrans(st, y, j);
    forall i | Idle(a, i) && i != k ensures Idle(j, i) {
      hide Idle;
      IdleKept(y, j, i);
    }
    if Within(j, f) {
      WithinKept(y, j, f);
      if IsBlock(f, to, toL) { ArmAt(st, f, k, y, r, toL, to, g, slots); }
    }
  }

  /** The `nop` that closes a statement, in the idle block `k`. */
  lemma ClosePlaced(st: Ctx, a: Ctx, k: nat, g: seq<Decl>, slots: seq<Name>, f: Function)
    requires Went(st, a, g, slots) && |st.blocks| <= k < |a.blocks| && Idle(a, k) && Within(Emit(At(a, k), Nop), f)
    ensures Join(f, k, At(a, k)) && Within(a, f)
  {
    hide Went;
    hide Within;
    hide Emit;
    hide Kept;
    hide Join;
    MoveWent(st, a, k, g, slots);
    WithinAt(a, k, f);
    var d := At(a, k);
    EmitTook(st, d, Nop, g, slots);
    WithinKept(d, Emit(d, Nop), f);
    JoinAt(st, f, k, d, g, slots);
  }

  /** A condition, the blocks opened after it, and the branch to the first of them or to number `no`. */
  lemma ForkPlaced(e: Expr, st: Ctx, prefixes: seq<string>, no: nat, f: Function, g: seq<Decl>, slots: seq<Name>)
    requires Ready(st, g, slots) && 2 <= |prefixes| && no < |prefixes|
    ensures |OpenBlocks(LowerExpr(e, st).0, prefixes).1| == |prefixes|
    ensures var (s1, c) := LowerExpr(e, st);
            var (s2, labels) := OpenBlocks(s1, prefixes);
            var n, s3 := |s1.blocks|, Emit(s2, BranchIf(c, labels[0], labels[no]));
            Went(st, s3, g, slots) && SameTargets(st, s3) && |st.blocks| <= n && |s3.blocks| == n + |prefixes| &&
            Idle(s3, n) && Idle(s3, n + 1) && Idle(s3, n + no) && s3.types == st.types &&
            (Within(s3, f) ==> Fork(f, e, st, labels[0], labels[no], n, n + no) && IsBlock(f, n + 1, labels[1]))
  {
    hide Went;
    hide Ready;
    hide Emit;
    hide LowerExpr;
    hide Kept;
    hide SameTargets;
    hide Within;
    hide Idle;
    hide Fork;
    hide Ok;
    hide IsBlock;
    hide OpenBlocks;
    Start(st, g, slots);
    ExprTook(st, st, e, g, slots);
    var (s1, c) := LowerExpr(e, st);
    var n := |s1.blocks|;
    OkOf(st, s1, g, slots);
    OpenTook(st, s1, prefixes, g, slots);
    var (s2, labels) := OpenBlocks(s1, prefixes);
    assert |labels| == |prefixes|;
    var branch := BranchIf(c, labels[0], labels[no]);
    EmitTook(st, s2, branch, g, slots);
    var s3 := Emit(s2, branch);
    OpenedBlock(s1, s2, labels, 0, f);
    OpenedBlock(s1, s2, labels, 1, f);
    OpenedBlock(s1, s2, labels, no, f);
    IdleKept(s2, s3, n);
    IdleKept(s2, s3, n + 1);
    IdleKept(s2, s3, n + no);
    SameTargetsTrans(st, s1, s2);
    SameTargetsTrans(st, s2, s3);
    if Within(s3, f) {
      WithinKept(s2, s3, f);
      ForkOpen(f, s1, prefixes, branch);
      ForkAt(f, e, st, labels[0], labels[no], n, n + no);
    }
  }

  lemma IfFacts(s: Stmt, st: Ctx, f: Function, g: seq<Decl>, slots: seq<Name>, brk: bool, lp: bool) returns (p: IfPlan)
    requires s.SIf? && Ready(st, g, slots) && WfStmt(s, g, brk, lp) && Within(LowerStmt(s, st), f)
    ensures IfCode(p, s, st, f, g, slots)
    ensures p.yesAt.types == st.types && (s.no.Some? ==> p.noAt.types == LowerStmt(s.yes, p.yesAt).types)
    ensures p.doneAt.types ==
            (match s.no case None => LowerStmt(s.yes, p.yesAt) case Some(other) => LowerStmt(other, p.noAt)).types
  {
    hide Went;
    hide Ready;
    hide Emit;
    hide LowerExpr;
    hide WfExpr;
    hide JumpUnlessTerminated;
    hide Kept;
    hide SameTargets;
    hide Within;
    hide Idle;
    hide Arm;
    hide Fork;
    hide Join;
    hide Ok;
    hide IsBlock;
    hide Opened;
    hide OpenBlocks;
    var (s1, c) := LowerExpr(s.cond, st);
    var n := |s1.blocks|;
    var prefixes := ["if_then_", "if_done_"] + if s.no.Some? then ["if_else_"] else [];
    var no := if s.no.Some? then 2 else 1;
    ForkPlaced(s.cond, st, prefixes, no, f, g, slots);
    var (s2, labels) := OpenBlocks(s1, prefixes);
    var doneL, noL := labels[1], labels[no];
    var s3 := Emit(s2, BranchIf(c, labels[0], noL));
    var y := At(s3, n);
    ArmPlaced(st, s3, n, s.yes, doneL, n + 1, g, slots, brk, lp, f);
    var s4 := JumpUnlessTerminated(LowerStmt(s.yes, y), doneL);
    var s5, z := s4, At(s4, n + 2);
    if s.no.Some? {
      ArmPlaced(st, s4, n + 2, s.no.value, doneL, n + 1, g, slots, brk, lp, f);
      s5 := JumpUnlessTerminated(LowerStmt(s.no.value, z), doneL);
    }
    var d := At(s5, n + 1);
    ClosePlaced(st, s5, n + 1, g, slots, f);
    p := IfPlan(n, labels[0], doneL, noL, n + no, y, z, d);
  }

  lemma MoveTargets(st: Ctx, a: Ctx, k: nat)
    ensures SameTargets(st, At(a, k)) == SameTargets(st, a)
  {
  }

  // ----- loops -----

  /** A loop body under its own targets, and the jump after it. */
  lemma BodyTook(st: Ctx, a: Ctx, loop: Stmt, doneL: Label, againL: Label, g: seq<Decl>, slots: seq<Name>)
    requires Went(st, a, g, slots) && WfStmt(loop, g, true, true) && NewName(loop, g)
    ensures var b := LowerBody(loop, doneL, againL, a);
            Went(st, b, g, slots) && Kept(a, b) && SameTargets(a, b) && Stays(a, b.cur) && |a.blocks| <= |b.blocks|
    ensures var p := Push(a, doneL, againL);
            var r := LowerStmt(loop, p);
            Went(p, p, g, slots) && Ok(r) &&
            JumpUnlessTerminated(r, againL).blocks == LowerBody(loop, doneL, againL, a).blocks
  {
    hide *;
    var p := Push(a, doneL, againL);
    ReadyOf(st, a, g, slots);
    PushReady(a, doneL, againL, g, slots);
    Start(p, g, slots);
    ArmTook(p, p, loop, againL, g, slots, true, true);
    BodyThen(st, a, loop, doneL, againL, g, slots);
    Start(a, g, slots);
    BodyThen(a, a, loop, doneL, againL, g, slots);
    ReadyOf(a, LowerBody(loop, doneL, againL, a), g, slots);
    KeptOf(a, LowerBody(loop, doneL, againL, a));
    BodyIs(loop, doneL, againL, a);
  }

  lemma BodyIs(loop: Stmt, doneL: Label, againL: Label, a: Ctx)
    ensures JumpUnlessTerminated(LowerStmt(loop, Push(a, doneL, againL)), againL).blocks ==
            LowerBody(loop, doneL, againL, a).blocks
  {
  }

  lemma BodyTypes(loop: Stmt, doneL: Label, againL: Label, a: Ctx)
    ensures LowerBody(loop, doneL, againL, a).types == LowerStmt(loop, Push(a, doneL, againL)).types
  {
    JumpTypes(LowerStmt(loop, Push(a, doneL, againL)), againL);
  }

  /** The blocks of one loop: test, body, what `continue` goes to, and the block after the loop. */
  datatype LoopPlan = LoopPlan(
    cond: nat, body: nat, again: nat, done: nat,
    condL: Label, bodyL: Label, againL: Label, doneL: Label,
    condAt: Ctx, bodyAt: Ctx, stepAt: Ctx)

  ghost predicate LoopCode(p: LoopPlan, s: Stmt, f: Function, g: seq<Decl>, slots: seq<Name>)
    requires IsLoop(s)
  {
    Fork(f, s.cond, p.condAt, p.bodyL, p.doneL, p.body, p.done) &&
    p.condAt.cur == p.cond && Idle(p.condAt, p.cond) && Ready(p.condAt, g, slots) &&
    Arm(f, p.body, p.bodyAt, LowerStmt(s.loop, p.bodyAt), p.againL, p.again, g, slots) &&
    Targets(p.bodyAt, f, true, true, Exits(p.done, p.again)) &&
    if s.SFor? then Arm(f, p.again, p.stepAt, LowerStmt(s.step, p.stepAt), p.condL, p.cond, g, slots)
    else p.again == p.cond
  }

  ghost predicate JumpsTo(f: Function, a: Ctx, l: Label, to: nat) {
    Within(Emit(a, Jump(l)), f) && IsBlock(f, to, l)
  }

  lemma PushTargets(a: Ctx, doneL: Label, againL: Label, f: Function, done: nat, again: nat)
    requires IsBlock(f, done, doneL) && IsBlock(f, again, againL)
    ensures Targets(Push(a, doneL, againL), f, true, true, Exits(done, again))
  {
  }

  /** Emitting at `a`, then going to block `k` opened earlier. */
  lemma GoTook(st: Ctx, a: Ctx, i: Instr, k: nat, g: seq<Decl>, slots: seq<Name>, f: Function)
    requires Went(st, a, g, slots) && |st.blocks| <= k < |a.blocks| && k != a.cur && Idle(a, k)
    ensures var r := At(Emit(a, i), k);
            Went(st, r, g, slots) && |r.blocks| == |a.blocks| && Idle(r, k) && SameTargets(a, r) && r.types == a.types
    ensures forall b :: b != a.cur && Idle(a, b) ==> Idle(At(Emit(a, i), k), b)
    ensures Within(At(Emit(a, i), k), f) ==> Within(Emit(a, i), f) && Within(a, f)
  {
    hide Went;
    hide Ready;
    hide Emit;
    hide Kept;
    hide SameTargets;
    hide Within;
    hide Idle;
    EmitTook(st, a, i, g, slots);
    EmitMoveWent(st, a, i, k, g, slots);
    MoveTargets(a, Emit(a, i), k);
    WithinAt(Emit(a, i), k, f);
    if Within(Emit(a, i), f) { WithinKept(a, Emit(a, i), f); }
    forall b | b != a.cur && Idle(a, b)
      ensures Idle(At(Emit(a, i), k), b)
    {
      IdleKept(a, Emit(a, i), b);
    }
  }

  /** `at` is the point where the closing `nop` is emitted. */
  ghost predicate Closed(f: Function, s: Stmt, st: Ctx, done: nat, at: Ctx) {
    Join(f, done, at) && LowerStmt(s, st) == Emit(at, Nop)
  }

  /** A loop body lowered into the idle block at hand, under its own targets. */
  lemma BodyPlaced(st: Ctx, a: Ctx, loop: Stmt, doneL: Label, againL: Label, done: nat, again: nat, g: seq<Decl>,
                   slots: seq<Name>, f: Function)
    requires Went(st, a, g, slots) && WfStmt(loop, g, true, true) && NewName(loop, g) && Idle(a, a.cur)
    ensures var b := LowerBody(loop, doneL, againL, a);
            Went(st, b, g, slots) && |a.blocks| <= |b.blocks| && (Within(b, f) ==> Within(a, f)) &&
            (forall i :: Idle(a, i) && i != a.cur ==> Idle(b, i)) &&
            b.types == LowerStmt(loop, Push(a, doneL, againL)).types
    ensures Within(LowerBody(loop, doneL, againL, a), f) && IsBlock(f, done, doneL) && IsBlock(f, again, againL) ==>
              var p := Push(a, doneL, againL);
              Targets(p, f, true, true, Exits(done, again)) &&
              Arm(f, a.cur, p, LowerStmt(loop, p), againL, again, g, slots)
  {
    hide Went;
    hide Ready;
    hide LowerBody;
    hide LowerStmt;
    hide WfStmt;
    hide JumpUnlessTerminated;
    hide Kept;
    hide SameTargets;
    hide Within;
    hide Arm;
    hide Ok;
    hide IsBlock;
    hide Targets;
    BodyTook(st, a, loop, doneL, againL, g, slots);
    BodyTypes(loop, doneL, againL, a);
    var b, p := LowerBody(loop, doneL, againL, a), Push(a, doneL, againL);
    var r := LowerStmt(loop, p);
    forall i | Idle(a, i) && i != a.cur ensures Idle(b, i) {
      hide Idle;
      IdleKept(a, b, i);
    }
    if Within(b, f) {
      WithinKept(a, b, f);
      if IsBlock(f, done, doneL) && IsBlock(f, again, againL) {
        PushTargets(a, doneL, againL, f, done, again);
        WithinSame(b, JumpUnlessTerminated(r, againL), f);
        IdleSame(a, p, a.cur);
        ArmAt(p, f, a.cur, p, r, againL, again, g, slots);
      }
    }
  }

  /** A condition lowered in the block at hand, the branch on it, and then block `k`. */
  lemma TestPlaced(st: Ctx, a: Ctx, e: Expr, yesL: Label, noL: Label, yes: nat, no: nat, k: nat, g: seq<Decl>,
                   slots: seq<Name>, f: Function)
    requires Went(st, a, g, slots) && |st.blocks| <= k < |a.blocks| && k != a.cur && Idle(a, k)
    ensures var (s1, c) := LowerExpr(e, a);
            var r := At(Emit(s1, BranchIf(c, yesL, noL)), k);
            Went(st, r, g, slots) && |a.blocks| <= |r.blocks| && r.types == a.types &&
            (forall i :: Idle(a, i) && i != a.cur ==> Idle(r, i)) &&
            (Within(r, f) ==> Within(a, f)) &&
            (Within(r, f) && IsBlock(f, yes, yesL) && IsBlock(f, no, noL) ==> Fork(f, e, a, yesL, noL, yes, no))
  {
    hide Went;
    hide Ready;
    hide Emit;
    hide LowerExpr;
    hide Kept;
    hide SameTargets;
    hide Within;
    hide Fork;
    hide Ok;
    hide IsBlock;
    ExprTook(st, a, e, g, slots);
    var (s1, c) := LowerExpr(e, a);
    forall i | Idle(a, i) && i != a.cur ensures Idle(s1, i) && i != s1.cur {
      IdleBound(a, i);
      hide Idle;
      IdleKept(a, s1, i);
    }
    hide Idle;
    GoTook(st, s1, BranchIf(c, yesL, noL), k, g, slots, f);
    var r := At(Emit(s1, BranchIf(c, yesL, noL)), k);
    if Within(r, f) {
      WithinKept(a, s1, f);
      if IsBlock(f, yes, yesL) && IsBlock(f, no, noL) { ForkAt(f, e, a, yesL, noL, yes, no); }
    }
  }

  lemma WhileFacts(s: Stmt, st: Ctx, f: Function, g: seq<Decl>, slots: seq<Name>, brk: bool, lp: bool)
    returns (p: LoopPlan, at: Ctx)
    requires s.SWhile? && Ready(st, g, slots) && WfStmt(s, g, brk, lp) && Within(LowerStmt(s, st), f)
    ensures LoopCode(p, s, f, g, slots) && Closed(f, s, st, p.done, at) && JumpsTo(f, st, p.condL, p.cond)
    ensures st.types == p.condAt.types == p.bodyAt.types && at.types == LowerStmt(s.loop, p.bodyAt).types
  {
    hide Went;
    hide Ready;
    hide Emit;
    hide LowerExpr;
    hide LowerBody;
    hide WfExpr;
    hide JumpUnlessTerminated;
    hide Kept;
    hide SameTargets;
    hide Within;
    hide Idle;
    hide Arm;
    hide Fork;
    hide Join;
    hide Ok;
    hide IsBlock;
    hide Opened;
    hide OpenBlocks;
    hide Targets;
    Start(st, g, slots);
    OkOf(st, st, g, slots);
    var n := |st.blocks|;
    var prefixes := ["while_cond_", "while_body_", "while_done_"];
    OpenTook(st, st, prefixes, g, slots);
    var (s1, labels) := OpenBlocks(st, prefixes);
    var condL, bodyL, doneL := labels[0], labels[1], labels[2];
    OpenedBlock(st, s1, labels, 0, f);
    OpenedBlock(st, s1, labels, 1, f);
    OpenedBlock(st, s1, labels, 2, f);
    GoTook(st, s1, Jump(condL), n, g, slots, f);
    var t := At(Emit(s1, Jump(condL)), n);
    TestPlaced(st, t, s.cond, bodyL, doneL, n + 1, n + 2, n + 1, g, slots, f);
    var (s2, c) := LowerExpr(s.cond, t);
    var s3 := At(Emit(s2, BranchIf(c, bodyL, doneL)), n + 1);
    BodyPlaced(st, s3, s.loop, doneL, condL, n + 2, n, g, slots, f);
    var s4 := LowerBody(s.loop, doneL, condL, s3);
    at := At(s4, n + 2);
    ClosePlaced(st, s4, n + 2, g, slots, f);
    // and back again
    ForkOpenJump(f, st, prefixes, condL, n);
    var b := Push(s3, doneL, condL);
    ReadyOf(st, t, g, slots);
    p := LoopPlan(n, n + 1, n, n + 2, condL, bodyL, condL, doneL, t, b, b);
  }

  lemma WithinSame(a: Ctx, b: Ctx, f: Function)
    requires a.blocks == b.blocks && Within(a, f)
    ensures Within(b, f)
  {
  }

  lemma IdleSame(a: Ctx, b: Ctx, i: nat)
    requires a.blocks == b.blocks && Idle(a, i)
    ensures Idle(b, i)
  {
  }

  lemma ForkOpenJump(f: Function, st: Ctx, prefixes: seq<string>, l: Label, to: nat)
    requires Ok(st) && Within(Emit(OpenBlocks(st, prefixes).0, Jump(l)), f) && IsBlock(f, to, l)
    ensures JumpsTo(f, st, l, to)
  {
    ForkOpen(f, st, prefixes, Jump(l));
  }

  lemma DoFacts(s: Stmt, st: Ctx, f: Function, g: seq<Decl>, slots: seq<Name>, brk: bool, lp: bool)
    returns (p: LoopPlan, at: Ctx)
    requires s.SDo? && Ready(st, g, slots) && WfStmt(s, g, brk, lp) && Within(LowerStmt(s, st), f)
    ensures LoopCode(p, s, f, g, slots) && Closed(f, s, st, p.done, at) && JumpsTo(f, st, p.bodyL, p.body)
    ensures p.bodyAt.types == st.types && at.types == p.condAt.types == LowerStmt(s.loop, p.bodyAt).types
  {
    hide Went;
    hide Ready;
    hide Emit;
    hide LowerExpr;
    hide LowerBody;
    hide WfExpr;
    hide JumpUnlessTerminated;
    hide Kept;
    hide SameTargets;
    hide Within;
    hide Idle;
    hide Arm;
    hide Fork;
    hide Join;
    hide Ok;
    hide IsBlock;
    hide Opened;
    hide OpenBlocks;
    hide Targets;
    Start(st, g, slots);
    OkOf(st, st, g, slots);
    var n := |st.blocks|;
    var prefixes := ["do_body_", "do_cond_", "do_done_"];
    OpenTook(st, st, prefixes, g, slots);
    var (s1, labels) := OpenBlocks(st, prefixes);
    var bodyL, condL, doneL := labels[0], labels[1], labels[2];
    OpenedBlock(st, s1, labels, 0, f);
    OpenedBlock(st, s1, labels, 1, f);
    OpenedBlock(st, s1, labels, 2, f);
    GoTook(st, s1, Jump(bodyL), n, g, slots, f);
    var s2 := At(Emit(s1, Jump(bodyL)), n);
    BodyPlaced(st, s2, s.loop, doneL, condL, n + 2, n + 1, g, slots, f);
    var s3 := LowerBody(s.loop, doneL, condL, s2);
    MoveWent(st, s3, n + 1, g, slots);
    var t := At(s3, n + 1);
    WithinAt(s3, n + 1, f);
    TestPlaced(st, t, s.cond, bodyL, doneL, n, n + 2, n + 2, g, slots, f);
    var (s4, c) := LowerExpr(s.cond, t);
    at := At(Emit(s4, BranchIf(c, bodyL, doneL)), n + 2);
    assert at == At(at, n + 2);
    ClosePlaced(st, at, n + 2, g, slots, f);
    // and back again
    ForkOpenJump(f, st, prefixes, bodyL, n);
    var b := Push(s2, doneL, condL);
    ReadyOf(st, t, g, slots);
    p := LoopPlan(n + 1, n, n + 1, n + 2, condL, bodyL, condL, doneL, t, b, b);
  }

  lemma SimpleLive(s: Stmt, a: Ctx)
    requires (s.SDecl? || s.SAssign? || s.SExpr?) && Ok(a)
    ensures !Terminated(LowerStmt(s, a))
  {
    hide LowerExpr;
    hide EmitBin;
    hide Terminated;
    hide Emit;
    match s {
      case SDecl(d, init) => DeclLive(d, init, a);
      case SAssign(x, aop, rhs) => AssignLive(x, aop, rhs, a);
      case SExpr(e) => ExprLive(e, a);
    }
  }

  lemma StoreLive(a: Ctx, i: Instr)
    requires !IsTerminator(i)
    ensures !Terminated(Emit(a, i))
  {
  }

  lemma DeclLive(d: Decl, init: Option<Expr>, a: Ctx)
    ensures !Terminated(LowerDecl(d, init, a))
  {
    hide LowerExpr;
    hide Terminated;
    hide Emit;
    var (s1, ir) := NextVar(a, d.name);
    var s2 := Emit(Define(s1, d, ir), VarDecl(ir));
    if init.Some? {
      var (s3, v) := LowerExpr(init.value, s2);
      StoreLive(s3, StoreVar(Resolve(s3, d.name), v));
    } else {
      var (t, dst) := NextTemp(s2);
      var s3 := Emit(t, Const(dst, if d.ty == TBool then RawBool(false) else IntText(0)));
      StoreLive(s3, StoreVar(Resolve(s3, d.name), dst));
    }
  }

  lemma AssignLive(x: string, aop: Option<BinOp>, rhs: Expr, a: Ctx)
    ensures !Terminated(LowerAssign(x, aop, rhs, a))
  {
    hide LowerExpr;
    hide EmitBin;
    hide Terminated;
    hide Emit;
    var (s1, v) := LowerExpr(rhs, a);
    match aop {
      case None =>
        var s2 := s1.(types := s1.types[Resolve(s1, x) := Guess(rhs, s1)]);
        StoreLive(s2, StoreVar(Resolve(s2, x), v));
      case Some(op) =>
        var (s2, cur) := LowerExpr(EVar(x), s1);
        var (s3, next) := EmitBin(s2, op, cur, v, Guess(EVar(x), s1) == TInt && Guess(rhs, s1) == TInt);
        StoreLive(s3, StoreVar(Resolve(s3, x), next));
    }
  }

  /** A simple statement in a block of its own, then an unconditional jump. */
  lemma SimpleTook(st: Ctx, a: Ctx, s: Stmt, toL: Label, k: nat, g: seq<Decl>, slots: seq<Name>, h: seq<Decl>,
                   more: seq<Name>, f: Function)
    requires Went(st, a, g, slots) && WfStmt(s, g, false, false) && (s.SDecl? || s.SAssign? || s.SExpr?)
    requires h == After(g, s) && more == SlotsAfter(s, slots, a)
    requires |st.blocks| <= k < |a.blocks| && k != a.cur && Idle(a, k)
    ensures var r := LowerStmt(s, a);
            var j := At(Emit(r, Jump(toL)), k);
            Ok(r) && JumpUnlessTerminated(r, toL) == Emit(r, Jump(toL)) && Went(st, j, h, more) && SameTargets(a, j) &&
            Idle(j, k) && |a.blocks| <= |j.blocks|
    ensures var j := At(Emit(LowerStmt(s, a), Jump(toL)), k);
            (forall b :: b != a.cur && Idle(a, b) ==> Idle(j, b)) &&
            (Within(j, f) ==> Within(Emit(LowerStmt(s, a), Jump(toL)), f) && Within(a, f))
  {
    hide *;
    ReadyOf(st, a, g, slots);
    var r := LowerStmt(s, a);
    StmtWent(s, a, g, slots, false, false);
    ReadyOf(a, r, h, more);
    WentTrans(st, a, r, g, slots, h, more);
    SimpleLive(s, a);
    EmitGrows(r, Jump(toL));
    var e := Emit(r, Jump(toL));
    GrowsTrans(a, r, e);
    KeptOf(a, e);
    EmitWent(st, r, Jump(toL), h, more);
    LiveJump(r, toL);
    OkOf(st, e, h, more);
    IdleBound(a, k);
    MoveWent(st, e, k, h, more);
    WithinAt(e, k, f);
    MoveTargets(a, e, k);
    if Within(e, f) { WithinKept(a, e, f); }
    forall b | b != a.cur && Idle(a, b)
      ensures Idle(At(e, k), b)
    {
      IdleKept(a, e, b);
    }
  }

  lemma IdleBound(a: Ctx, k: nat)
    requires Idle(a, k)
    ensures k < |a.blocks|
  {
  }

  lemma LiveJump(r: Ctx, l: Label)
    requires !Terminated(r)
    ensures JumpUnlessTerminated(r, l) == Emit(r, Jump(l))
  {
  }

  /** The start or the step of a `for` in the idle block at hand, going on to block `to`, and then block `k`. */
  lemma SimplePlaced(st: Ctx, a: Ctx, s: Stmt, toL: Label, to: nat, k: nat, g: seq<Decl>, slots: seq<Name>,
                     h: seq<Decl>, more: seq<Name>, f: Function)
    requires Went(st, a, g, slots) && WfStmt(s, g, false, false) && (s.SDecl? || s.SAssign? || s.SExpr?)
    requires h == After(g, s) && more == SlotsAfter(s, slots, a)
    requires |st.blocks| <= k < |a.blocks| && k != a.cur && Idle(a, k) && Idle(a, a.cur)
    ensures var j := At(Emit(LowerStmt(s, a), Jump(toL)), k);
            Went(st, j, h, more) && |a.blocks| <= |j.blocks| && j.types == LowerStmt(s, a).types &&
            (forall b :: b != a.cur && Idle(a, b) ==> Idle(j, b)) &&
            (Within(j, f) ==> Within(a, f)) &&
            (Within(j, f) && IsBlock(f, to, toL) ==> Arm(f, a.cur, a, LowerStmt(s, a), toL, to, g, slots))
  {
    SimpleTook(st, a, s, toL, k, g, slots, h, more, f);
    EmitIs(LowerStmt(s, a), Jump(toL));
    hide *;
    var r := LowerStmt(s, a);
    if Within(At(Emit(r, Jump(toL)), k), f) && IsBlock(f, to, toL) { ArmAt(st, f, a.cur, a, r, toL, to, g, slots); }
  }

  lemma ForFacts(s: Stmt, st: Ctx, f: Function, g: seq<Decl>, slots: seq<Name>, brk: bool, lp: bool)
    returns (p: LoopPlan, initL: Label, init: nat, initAt: Ctx, at: Ctx)
    requires s.SFor? && Ready(st, g, slots) && WfStmt(s, g, brk, lp) && Within(LowerStmt(s, st), f)
    ensures LoopCode(p, s, f, After(g, s.start), SlotsAfter(s.start, slots, initAt))
    ensures Closed(f, s, st, p.done, at) && JumpsTo(f, st, initL, init)
    ensures Arm(f, init, initAt, LowerStmt(s.start, initAt), p.condL, p.cond, g, slots)
    ensures initAt.types == st.types && p.condAt.types == p.bodyAt.types == LowerStmt(s.start, initAt).types
    ensures p.stepAt.types == LowerStmt(s.loop, p.bodyAt).types && at.types == LowerStmt(s.step, p.stepAt).types
  {
    hide Went;
    hide Ready;
    hide Emit;
    hide LowerExpr;
    hide LowerBody;
    hide WfExpr;
    hide JumpUnlessTerminated;
    hide Kept;
    hide SameTargets;
    hide Within;
    hide Idle;
    hide Arm;
    hide Fork;
    hide Join;
    hide Ok;
    hide IsBlock;
    hide Opened;
    hide OpenBlocks;
    hide After;
    hide Targets;
    Start(st, g, slots);
    OkOf(st, st, g, slots);
    var n := |st.blocks|;
    var prefixes := ["for_init_", "for_cond_", "for_body_", "for_step_", "for_done_"];
    OpenTook(st, st, prefixes, g, slots);
    var (s1, labels) := OpenBlocks(st, prefixes);
    initL, init := labels[0], n;
    var condL, bodyL, stepL, doneL := labels[1], labels[2], labels[3], labels[4];
    OpenedBlock(st, s1, labels, 0, f);
    OpenedBlock(st, s1, labels, 1, f);
    OpenedBlock(st, s1, labels, 2, f);
    OpenedBlock(st, s1, labels, 3, f);
    OpenedBlock(st, s1, labels, 4, f);
    GoTook(st, s1, Jump(initL), n, g, slots, f);
    initAt := At(Emit(s1, Jump(initL)), n);
    var h, more := After(g, s.start), SlotsAfter(s.start, slots, initAt);
    SimplePlaced(st, initAt, s.start, condL, n + 1, n + 1, g, slots, h, more, f);
    var started := LowerStmt(s.start, initAt);
    var t := At(Emit(started, Jump(condL)), n + 1);
    TestPlaced(st, t, s.cond, bodyL, doneL, n + 2, n + 4, n + 2, h, more, f);
    var (s3, c) := LowerExpr(s.cond, t);
    var s4 := At(Emit(s3, BranchIf(c, bodyL, doneL)), n + 2);
    BodyPlaced(st, s4, s.loop, doneL, stepL, n + 4, n + 3, h, more, f);
    var s5 := LowerBody(s.loop, doneL, stepL, s4);
    MoveWent(st, s5, n + 3, h, more);
    var u := At(s5, n + 3);
    WithinAt(s5, n + 3, f);
    StepSame(s.step, h, more, u);
    SimplePlaced(st, u, s.step, condL, n + 1, n + 4, h, more, h, more, f);
    var stepped := LowerStmt(s.step, u);
    at := At(Emit(stepped, Jump(condL)), n + 4);
    assert at == At(at, n + 4);
    ClosePlaced(st, at, n + 4, h, more, f);
    // and back again
    ForkOpenJump(f, st, prefixes, initL, n);
    var b := Push(s4, doneL, stepL);
    ReadyOf(st, t, h, more);
    p := LoopPlan(n + 1, n + 2, n + 3, n + 4, condL, bodyL, stepL, doneL, t, b, u);
  }

  lemma StepSame(s: Stmt, h: seq<Decl>, more: seq<Name>, a: Ctx)
    requires !s.SDecl?
    ensures After(h, s) == h && SlotsAfter(s, more, a) == more
  {
  }

  // ----- switch -----

  /** What the cases of one `switch` share: its value's register, its first block, its labels, the
      block for no match and the block after the `switch`. */
  datatype SwitchPlan = SwitchPlan(
    v: Name, n: nat, labels: seq<Label>, defaultL: Label, doneL: Label, default: nat, done: nat)

  ghost function OtherLabel(p: SwitchPlan, s: Stmt, i: nat): Label
    requires s.SSwitch? && i < |s.cases| && 2 * |s.cases| <= |p.labels|
  {
    if i + 1 < |s.cases| then p.labels[2 * i + 2] else p.defaultL
  }

  /** Where the search for a match goes on with case `i`. */
  ghost function CaseBlock(p: SwitchPlan, s: Stmt, i: nat): nat
    requires s.SSwitch?
  {
    if i < |s.cases| then p.n + 2 * i else p.default
  }

  /** The comparison of case `i`, up to and including its branch. */
  ghost function Compared(p: SwitchPlan, s: Stmt, i: nat, st: Ctx): Ctx
    requires s.SSwitch? && i < |s.cases| && 2 * |s.cases| <= |p.labels|
  {
    var (s1, w) := LowerExpr(s.cases[i].value, At(st, p.n + 2 * i));
    var (s2, eq) := NextTemp(s1);
    Emit(Emit(s2, Bin(eq, Eq, p.v, w)), BranchIf(eq, p.labels[2 * i + 1], OtherLabel(p, s, i)))
  }

  ghost function BodyAt(p: SwitchPlan, s: Stmt, i: nat, st: Ctx): Ctx
    requires s.SSwitch? && i < |s.cases| && 2 * |s.cases| <= |p.labels|
  {
    At(Compared(p, s, i, st), p.n + 2 * i + 1)
  }

  ghost function NextCase(p: SwitchPlan, s: Stmt, i: nat, st: Ctx): Ctx
    requires s.SSwitch? && i < |s.cases| && 2 * |s.cases| <= |p.labels|
  {
    JumpUnlessTerminated(LowerAll(s.cases[i].body, BodyAt(p, s, i, st)), p.doneL)
  }

  ghost function AllCases(p: SwitchPlan, s: Stmt, i: nat, st: Ctx): Ctx
    requires s.SSwitch? && i <= |s.cases| && 2 * |s.cases| <= |p.labels|
  {
    LowerCases(p.v, s, i, p.n, p.labels, p.defaultL, p.doneL, st)
  }

  ghost predicate CaseCode(p: SwitchPlan, s: Stmt, i: nat, st: Ctx, t: Ctx, f: Function, g: seq<Decl>, slots: seq<Name>)
    requires s.SSwitch? && i < |s.cases| && 2 * |s.cases| <= |p.labels|
  {
    var a, b := At(st, p.n + 2 * i), BodyAt(p, s, i, st);
    Idle(a, p.n + 2 * i) && Ready(a, g, slots) && Within(Compared(p, s, i, st), f) &&
    IsBlock(f, p.n + 2 * i + 1, p.labels[2 * i + 1]) && IsBlock(f, CaseBlock(p, s, i + 1), OtherLabel(p, s, i)) &&
    Arm(f, p.n + 2 * i + 1, b, LowerAll(s.cases[i].body, b), p.doneL, p.done, g, slots) && SameTargets(t, b)
  }

  ghost predicate CasesCode(p: SwitchPlan, s: Stmt, i: nat, st: Ctx, t: Ctx, f: Function, g: seq<Decl>,
                            slots: seq<Name>)
    requires s.SSwitch? && i <= |s.cases| && 2 * |s.cases| <= |p.labels|
    decreases |s.cases| - i
  {
    i < |s.cases| ==>
      CaseCode(p, s, i, st, t, f, g, slots) && st.tempId <= NextCase(p, s, i, st).tempId &&
      CasesCode(p, s, i + 1, NextCase(p, s, i, st), t, f, g, slots)
  }

  ghost predicate LabelsThere(p: SwitchPlan, s: Stmt, f: Function) {
    s.SSwitch? && |p.labels| == 2 * |s.cases| + (if s.default.Otherwise? then 1 else 0) &&
    (forall j :: 0 <= j < |p.labels| ==> IsBlock(f, p.n + j, p.labels[j])) &&
    IsBlock(f, p.done, p.doneL) && IsBlock(f, p.default, p.defaultL)
  }

  /** The blocks from number `from` to the last one opened for the `switch` are still empty. */
  ghost predicate IdleFrom(st: Ctx, from: nat, top: nat) {
    top <= |st.blocks| && forall j :: from <= j < top ==> Idle(st, j)
  }

  lemma IdleFromKept(a: Ctx, b: Ctx, from: nat, top: nat)
    requires Kept(a, b) && IdleFrom(a, from, top) && a.cur < from
    ensures IdleFrom(b, from, top)
  {
    forall j | from <= j < top
      ensures Idle(b, j)
    {
      assert Idle(a, j);
    }
  }

  lemma IdleFromAt(a: Ctx, k: nat, from: nat, top: nat)
    requires IdleFrom(a, from, top)
    ensures IdleFrom(At(a, k), from, top)
    ensures forall j :: from <= j < top ==> Idle(At(a, k), j)
  {
    forall j | from <= j < top
      ensures Idle(At(a, k), j)
    {
      assert Idle(a, j);
    }
  }

  lemma IdleLess(a: Ctx, from: nat, from': nat, top: nat)
    requires IdleFrom(a, from, top) && from <= from'
    ensures IdleFrom(a, from', top)
  {
  }

  /** A list of statements as a body, and the jump after it. */
  lemma ArmAllTook(st: Ctx, a: Ctx, ss: seq<Stmt>, toL: Label, g: seq<Decl>, slots: seq<Name>, brk: bool, lp: bool)
    requires Went(st, a, g, slots) && WfAll(ss, g, brk, lp) && NewNames(ss, g)
    ensures var r := LowerAll(ss, a);
            var j := JumpUnlessTerminated(r, toL);
            Ok(r) && Went(st, j, g, slots) && Kept(a, j) && SameTargets(a, j) && |a.blocks| <= |j.blocks| &&
            a.tempId <= j.tempId
  {
    hide *;
    var r := LowerAll(ss, a);
    ReadyOf(st, a, g, slots);
    AllThen(st, a, ss, g, slots, brk, lp);
    Start(a, g, slots);
    AllThen(a, a, ss, g, slots, brk, lp);
    ReadyOf(a, r, g, slots);
    JumpThen(a, r, toL);
    JumpWent(st, r, toL, g, slots);
    KeptOf(a, JumpUnlessTerminated(r, toL));
    CountsOf(a, JumpUnlessTerminated(r, toL));
  }

  lemma TempTook(st: Ctx, a: Ctx, g: seq<Decl>, slots: seq<Name>)
    requires Went(st, a, g, slots)
    ensures var r := NextTemp(a).0;
            Went(st, r, g, slots) && r.blocks == a.blocks && r.cur == a.cur && SameTargets(a, r) &&
            r.tempId == a.tempId + 1 && NextTemp(a).1 == Temp(a.tempId + 1)
  {
    hide Went;
    TempWent(st, a, g, slots);
  }

  /** The comparison of one case. */
  lemma ComparedTook(p: SwitchPlan, s: Stmt, i: nat, st: Ctx, t: Ctx, f: Function, g: seq<Decl>, slots: seq<Name>)
    requires s.SSwitch? && i < |s.cases| && 2 * |s.cases| <= |p.labels|
    requires Went(t, st, g, slots) && |t.blocks| <= p.n && p.n + 2 * i < |st.blocks|
    ensures var a, r := At(st, p.n + 2 * i), Compared(p, s, i, st);
            Went(t, a, g, slots) && Went(t, r, g, slots) && Kept(a, r) && SameTargets(a, r) &&
            |a.blocks| <= |r.blocks| && a.tempId <= r.tempId
  {
    hide Went;
    hide Kept;
    hide SameTargets;
    hide LowerExpr;
    hide Emit;
    hide NextTemp;
    var a := At(st, p.n + 2 * i);
    MoveWent(t, st, p.n + 2 * i, g, slots);
    ReadyOf(t, a, g, slots);
    Start(a, g, slots);
    ComparedFrom(p, s, i, st, a, g, slots);
    ReadyOf(a, Compared(p, s, i, st), g, slots);
    WentTrans(t, a, Compared(p, s, i, st), g, slots, g, slots);
    KeptOf(a, Compared(p, s, i, st));
    CountsOf(a, Compared(p, s, i, st));
  }

  lemma ComparedFrom(p: SwitchPlan, s: Stmt, i: nat, st: Ctx, t: Ctx, g: seq<Decl>, slots: seq<Name>)
    requires s.SSwitch? && i < |s.cases| && 2 * |s.cases| <= |p.labels|
    requires Went(t, At(st, p.n + 2 * i), g, slots)
    ensures Went(t, Compared(p, s, i, st), g, slots)
  {
    hide Went;
    hide Kept;
    hide SameTargets;
    hide LowerExpr;
    hide Emit;
    hide NextTemp;
    var a := At(st, p.n + 2 * i);
    ExprTook(t, a, s.cases[i].value, g, slots);
    var (s1, w) := LowerExpr(s.cases[i].value, a);
    var (s2, eq) := NextTemp(s1);
    TempTook(t, s1, g, slots);
    EmitTook(t, s2, Bin(eq, Eq, p.v, w), g, slots);
    EmitTook(t, Emit(s2, Bin(eq, Eq, p.v, w)), BranchIf(eq, p.labels[2 * i + 1], OtherLabel(p, s, i)), g, slots);
  }

  lemma CasesStep(p: SwitchPlan, s: Stmt, i: nat, st: Ctx)
    requires s.SSwitch? && i <= |s.cases| && 2 * |s.cases| <= |p.labels|
    ensures AllCases(p, s, i, st) == if i == |s.cases| then st else AllCases(p, s, i + 1, NextCase(p, s, i, st))
  {
    hide LowerExpr;
    hide LowerAll;
    hide Emit;
    hide JumpUnlessTerminated;
  }

  lemma CaseWf(s: Stmt, i: nat, g: seq<Decl>, brk: bool, lp: bool)
    requires s.SSwitch? && i < |s.cases| && WfStmt(s, g, brk, lp)
    ensures var c := s.cases[i]; WfExpr(c.value, g) && NewNames(c.body, g) && WfAll(c.body, g, true, lp)
  {
    hide WfExpr;
    hide WfAll;
    hide NewNames;
    assert s.cases[i] in s.cases;
  }

  lemma {:induction false} CasesTook(p: SwitchPlan, s: Stmt, i: nat, st: Ctx, t: Ctx, f: Function, g: seq<Decl>,
                                     slots: seq<Name>, brk: bool, lp: bool)
    requires s.SSwitch? && i <= |s.cases| && WfStmt(s, g, brk, lp) && 2 * |s.cases| <= |p.labels|
    requires Went(t, st, g, slots) && SameTargets(t, st) && |t.blocks| <= p.n
    requires IdleFrom(st, p.n + 2 * i, p.n + |p.labels|) && p.n + |p.labels| <= |st.blocks|
    ensures var r := AllCases(p, s, i, st);
            Went(t, r, g, slots) && SameTargets(t, r) && IdleFrom(r, p.n + 2 * |s.cases|, p.n + |p.labels|) &&
            |st.blocks| <= |r.blocks|
    ensures var r := AllCases(p, s, i, st);
            Within(r, f) ==> Within(st, f) && (LabelsThere(p, s, f) ==> CasesCode(p, s, i, st, t, f, g, slots))
    decreases |s.cases| - i
  {
    hide *;
    CasesStep(p, s, i, st);
    CasesCodeStep(p, s, i, st, t, f, g, slots);
    if i < |s.cases| {
      var c, a, b, r := s.cases[i], At(st, p.n + 2 * i), Compared(p, s, i, st), NextCase(p, s, i, st);
      var d := At(b, p.n + 2 * i + 1);
      var top := p.n + |p.labels|;
      CaseWf(s, i, g, brk, lp);
      ComparedTook(p, s, i, st, t, f, g, slots);
      IdleFromAt(st, p.n + 2 * i, p.n + 2 * i, top);
      AtIs(st, p.n + 2 * i);
      IdleLess(a, p.n + 2 * i, p.n + 2 * i + 1, top);
      IdleFromKept(a, b, p.n + 2 * i + 1, top);
      IdleFromAt(b, p.n + 2 * i + 1, p.n + 2 * i + 1, top);
      AtIs(b, p.n + 2 * i + 1);
      MoveWent(t, b, p.n + 2 * i + 1, g, slots);
      CaseIs(p, s, i, st);
      ArmAllTook(t, d, c.body, p.doneL, g, slots, true, lp);
      IdleLess(d, p.n + 2 * i + 1, p.n + 2 * i + 2, top);
      IdleFromKept(d, r, p.n + 2 * i + 2, top);
      MoveTargets(t, st, p.n + 2 * i);
      SameTargetsTrans(t, a, b);
      MoveTargets(t, b, p.n + 2 * i + 1);
      SameTargetsTrans(t, d, r);
      CasesTook(p, s, i + 1, r, t, f, g, slots, brk, lp);
      if Within(AllCases(p, s, i, st), f) {
        WithinKept(d, r, f);
        WithinAt(b, p.n + 2 * i + 1, f);
        WithinKept(a, b, f);
        WithinAt(st, p.n + 2 * i, f);
        if LabelsThere(p, s, f) {
          LabelsOf(p, s, i, f);
          ArmAt(t, f, p.n + 2 * i + 1, d, LowerAll(c.body, d), p.doneL, p.done, g, slots);
          ReadyOf(t, a, g, slots);
          CaseCodeIs(p, s, i, st, t, f, g, slots);
        }
      }
    }
  }

  lemma AtIs(a: Ctx, k: nat)
    ensures At(a, k).cur == k && At(a, k).blocks == a.blocks && At(a, k).tempId == a.tempId && At(a, k).types == a.types
  {
  }

  lemma CaseIs(p: SwitchPlan, s: Stmt, i: nat, st: Ctx)
    requires s.SSwitch? && i < |s.cases| && 2 * |s.cases| <= |p.labels|
    ensures BodyAt(p, s, i, st) == At(Compared(p, s, i, st), p.n + 2 * i + 1)
    ensures NextCase(p, s, i, st) == JumpUnlessTerminated(LowerAll(s.cases[i].body, BodyAt(p, s, i, st)), p.doneL)
  {
  }

  lemma LabelsOf(p: SwitchPlan, s: Stmt, i: nat, f: Function)
    requires s.SSwitch? && LabelsThere(p, s, f) && i < |s.cases|
    ensures IsBlock(f, p.n + 2 * i + 1, p.labels[2 * i + 1]) && IsBlock(f, CaseBlock(p, s, i + 1), OtherLabel(p, s, i))
    ensures IsBlock(f, p.done, p.doneL)
  {
  }

  lemma CasesCodeStep(p: SwitchPlan, s: Stmt, i: nat, st: Ctx, t: Ctx, f: Function, g: seq<Decl>, slots: seq<Name>)
    requires s.SSwitch? && i <= |s.cases| && 2 * |s.cases| <= |p.labels|
    ensures CasesCode(p, s, i, st, t, f, g, slots) ==
            (i < |s.cases| ==>
               CaseCode(p, s, i, st, t, f, g, slots) && st.tempId <= NextCase(p, s, i, st).tempId &&
               CasesCode(p, s, i + 1, NextCase(p, s, i, st), t, f, g, slots))
  {
    hide CaseCode;
    hide NextCase;
  }

  lemma CaseCodeIs(p: SwitchPlan, s: Stmt, i: nat, st: Ctx, t: Ctx, f: Function, g: seq<Decl>, slots: seq<Name>)
    requires s.SSwitch? && i < |s.cases| && 2 * |s.cases| <= |p.labels|
    requires var a, b := At(st, p.n + 2 * i), BodyAt(p, s, i, st);
             Idle(a, p.n + 2 * i) && Ready(a, g, slots) && Within(Compared(p, s, i, st), f) &&
             IsBlock(f, p.n + 2 * i + 1, p.labels[2 * i + 1]) &&
             IsBlock(f, CaseBlock(p, s, i + 1), OtherLabel(p, s, i)) &&
             Arm(f, p.n + 2 * i + 1, b, LowerAll(s.cases[i].body, b), p.doneL, p.done, g, slots) && SameTargets(t, b)
    ensures CaseCode(p, s, i, st, t, f, g, slots)
  {
    hide Idle;
    hide Ready;
    hide Within;
    hide IsBlock;
    hide Arm;
    hide SameTargets;
    hide Compared;
    hide CaseBlock;
    hide OtherLabel;
    hide BodyAt;
  }

  /** The whole `switch`: `first` is the context in which the cases are lowered, `dfltAt` the start
      of the default block, `at` the point of the closing `nop`. */
  ghost predicate SwitchCode(p: SwitchPlan, s: Stmt, st: Ctx, first: Ctx, dfltAt: Ctx, at: Ctx, f: Function,
                             g: seq<Decl>, slots: seq<Name>)
    requires s.SSwitch?
  {
    var (s1, v) := LowerExpr(s.e, st);
    var t := s1.(labelId := s1.labelId + 1, breaks := s1.breaks + [p.doneL]);
    p.v == v && LabelsThere(p, s, f) && |p.labels| > 0 && SameTargets(st, s1) &&
    first.tempId == s1.tempId && JumpsTo(f, s1, p.labels[0], CaseBlock(p, s, 0)) &&
    CasesCode(p, s, 0, first, t, f, g, slots) &&
    (match s.default
     case Otherwise(body) => Arm(f, p.default, dfltAt, LowerAll(body, dfltAt), p.doneL, p.done, g, slots) &&
                             SameTargets(t, dfltAt)
     case NoDefault => p.default == p.done) &&
    Join(f, p.done, at) && LowerStmt(s, st).blocks == Emit(at, Nop).blocks && LowerStmt(s, st).cur == at.cur
  }

  lemma CloseIs(doneL: Label, c: Ctx, f: Function)
    requires Within(CloseSwitch(doneL, c), f)
    ensures var d := At(AddBlock(c, doneL), |c.blocks|);
            CloseSwitch(doneL, c).blocks == Emit(d, Nop).blocks && CloseSwitch(doneL, c).cur == d.cur == |c.blocks| &&
            Within(Emit(d, Nop), f) && Idle(d, |c.blocks|) && Within(c, f) && IsBlock(f, |c.blocks|, doneL)
  {
    var d := At(AddBlock(c, doneL), |c.blocks|);
    var e := Emit(d, Nop);
    WithinSame(CloseSwitch(doneL, c), e, f);
    forall i | 0 <= i < |c.blocks|
      ensures c.blocks[i].tag == f.blocks[i].tag && c.blocks[i].instrs <= f.blocks[i].instrs
    {
      assert e.blocks[i] == c.blocks[i];
    }
    assert e.blocks[|c.blocks|].tag == doneL;
  }

  lemma LabelsAre(p: SwitchPlan, s: Stmt, t: Ctx, r: Ctx, f: Function)
    requires s.SSwitch? && |p.labels| == 2 * |s.cases| + (if s.default.Otherwise? then 1 else 0)
    requires Opened(t, r, p.labels) && Within(r, f) && p.n == |t.blocks| && IsBlock(f, p.done, p.doneL)
    requires if s.default.Otherwise? then p.default == p.n + 2 * |s.cases| && p.defaultL == p.labels[2 * |s.cases|]
             else p.default == p.done && p.defaultL == p.doneL
    ensures LabelsThere(p, s, f)
  {
    forall j | 0 <= j < |p.labels|
      ensures IsBlock(f, p.n + j, p.labels[j])
    {
      OpenedBlock(t, r, p.labels, j, f);
    }
  }

  lemma OpenedIdle(t: Ctx, r: Ctx, labels: seq<Label>)
    requires Opened(t, r, labels)
    ensures IdleFrom(r, |t.blocks|, |t.blocks| + |labels|)
  {
    forall j | |t.blocks| <= j < |t.blocks| + |labels|
      ensures Idle(r, j)
    {
      assert r.blocks[|t.blocks| + (j - |t.blocks|)] == Block(labels[j - |t.blocks|], []);
    }
  }

  lemma SwitchWf(s: Stmt, g: seq<Decl>, brk: bool, lp: bool)
    requires s.SSwitch? && WfStmt(s, g, brk, lp)
    ensures WfExpr(s.e, g) && (s.cases != [] || s.default.Otherwise?)
    ensures s.default.Otherwise? ==> NewNames(s.default.body, g) && WfAll(s.default.body, g, true, lp)
  {
    hide WfExpr;
    hide WfAll;
    hide NewNames;
  }

  /** The context after the cases and the default block. */
  ghost function Arms(p: SwitchPlan, s: Stmt, first: Ctx): Ctx
    requires s.SSwitch? && 2 * |s.cases| <= |p.labels|
  {
    var s5 := AllCases(p, s, 0, first);
    match s.default
    case Otherwise(body) => JumpUnlessTerminated(LowerAll(body, At(s5, p.n + 2 * |s.cases|)), p.doneL)
    case NoDefault => s5
  }

  lemma SwitchIs(s: Stmt, st: Ctx) returns (p: SwitchPlan, t: Ctx, first: Ctx)
    requires s.SSwitch? && (s.cases != [] || s.default.Otherwise?)
    ensures var (s1, v) := LowerExpr(s.e, st);
            var (s3, labels) := OpenBlocks(t, CasePrefixes(|s.cases|) + if s.default.Otherwise? then ["sw_default_"]
                                           else []);
            p.v == v && p.doneL == Fresh("sw_done_", s1.labelId + 1) && p.n == |s1.blocks| && p.labels == labels &&
            t == s1.(labelId := s1.labelId + 1, breaks := s1.breaks + [p.doneL]) &&
            first == Emit(s3, Jump(labels[0])) &&
            |labels| == 2 * |s.cases| + (if s.default.Otherwise? then 1 else 0) > 0 &&
            p.defaultL == if s.default.Otherwise? then labels[2 * |s.cases|] else p.doneL
    ensures LowerStmt(s, st) == CloseSwitch(p.doneL, Arms(p, s, first))
    ensures p.done == |Arms(p, s, first).blocks|
    ensures p.default == if s.default.Otherwise? then p.n + 2 * |s.cases| else p.done
  {
    hide LowerExpr;
    hide LowerAll;
    hide LowerCases;
    hide Emit;
    hide OpenBlocks;
    hide CloseSwitch;
    hide JumpUnlessTerminated;
    var (s1, v) := LowerExpr(s.e, st);
    var (s2, doneL) := NextLabel(s1, "sw_done_");
    t := s2.(breaks := s2.breaks + [doneL]);
    var n := |s2.blocks|;
    var (s3, labels) := OpenBlocks(t, CasePrefixes(|s.cases|) + if s.default.Otherwise? then ["sw_default_"] else []);
    var defaultL := if s.default.Otherwise? then labels[2 * |s.cases|] else doneL;
    first := Emit(s3, Jump(labels[0]));
    p := SwitchPlan(v, n, labels, defaultL, doneL, 0, 0);
    var done := |Arms(p, s, first).blocks|;
    p := p.(done := done, default := if s.default.Otherwise? then n + 2 * |s.cases| else done);
  }

  lemma SwitchFacts(s: Stmt, st: Ctx, f: Function, g: seq<Decl>, slots: seq<Name>, brk: bool, lp: bool)
    returns (p: SwitchPlan, first: Ctx, dfltAt: Ctx, at: Ctx)
    requires s.SSwitch? && Ready(st, g, slots) && WfStmt(s, g, brk, lp) && Within(LowerStmt(s, st), f)
    ensures SwitchCode(p, s, st, first, dfltAt, at, f, g, slots)
    ensures first.types == st.types && (s.default.Otherwise? ==> dfltAt.types == AllCases(p, s, 0, first).types)
    ensures LowerStmt(s, st).types ==
            (match s.default case NoDefault => AllCases(p, s, 0, first)
                             case Otherwise(body) => LowerAll(body, dfltAt)).types
  {
    hide *;
    SwitchWf(s, g, brk, lp);
    Start(st, g, slots);
    ExprTook(st, st, s.e, g, slots);
    var s1 := LowerExpr(s.e, st).0;
    var t;
    p, t, first := SwitchIs(s, st);
    PushSwitch(st, s1, t, g, slots);
    var prefixes := CasePrefixes(|s.cases|) + if s.default.Otherwise? then ["sw_default_"] else [];
    OpenTook(t, t, prefixes, g, slots);
    var s3 := OpenBlocks(t, prefixes).0;
    EmitTook(t, s3, Jump(p.labels[0]), g, slots);
    OpenedIdle(t, s3, p.labels);
    var top := p.n + |p.labels|;
    OkOf(t, t, g, slots);
    IdleFromKept(s3, first, p.n, top);
    SameTargetsTrans(t, s3, first);
    CasesTook(p, s, 0, first, t, f, g, slots, brk, lp);
    var s5 := AllCases(p, s, 0, first);
    var s6 := Arms(p, s, first);
    dfltAt := At(s5, p.n + 2 * |s.cases|);
    ArmsIs(p, s, first);
    if s.default.Otherwise? {
      var k := p.n + 2 * |s.cases|;
      IdleFromAt(s5, k, k, top);
      AtIs(s5, k);
      IdleBound(dfltAt, k);
      MoveWent(t, s5, k, g, slots);
      MoveTargets(t, s5, k);
      ArmAllTook(t, dfltAt, s.default.body, p.doneL, g, slots, true, lp);
    }
    CloseIs(p.doneL, s6, f);
    if s.default.Otherwise? {
      WithinKept(dfltAt, s6, f);
      WithinAt(s5, p.n + 2 * |s.cases|, f);
    }
    at := At(AddBlock(s6, p.doneL), |s6.blocks|);
    WithinKept(s3, first, f);
    LabelsAre(p, s, t, s3, f);
    if s.default.Otherwise? {
      ArmAt(t, f, p.default, dfltAt, LowerAll(s.default.body, dfltAt), p.doneL, p.done, g, slots);
    }
    FirstTemp(t, s3, prefixes, p.labels[0]);
    SwitchJumps(p, s, s1, t, prefixes, f);
    StmtWent(s, st, g, slots, brk, lp);
    ReadyOf(st, LowerStmt(s, st), After(g, s), SlotsAfter(s, slots, st));
    JoinLast(p.doneL, s6, f);
    SwitchCodeIs(p, s, st, t, first, dfltAt, at, f, g, slots);
    AtIs(s5, p.n + 2 * |s.cases|);
    CloseTypes(p.doneL, s6);
    if s.default.Otherwise? { JumpTypes(LowerAll(s.default.body, dfltAt), p.doneL); }
  }

  lemma CloseTypes(doneL: Label, c: Ctx)
    ensures CloseSwitch(doneL, c).types == c.types
  {
  }

  /** Comparing changes no types. */
  lemma CaseTypes(p: SwitchPlan, s: Stmt, i: nat, st: Ctx, g: seq<Decl>, slots: seq<Name>)
    requires s.SSwitch? && i < |s.cases| && 2 * |s.cases| <= |p.labels| && Ready(At(st, p.n + 2 * i), g, slots)
    ensures At(st, p.n + 2 * i).types == st.types == BodyAt(p, s, i, st).types
    ensures NextCase(p, s, i, st).types == LowerAll(s.cases[i].body, BodyAt(p, s, i, st)).types
  {
    hide LowerExpr;
    hide LowerAll;
    hide Binds;
    hide Ok;
    hide Emit;
    var a := At(st, p.n + 2 * i);
    LowerExprGrows(s.cases[i].value, a);
    var (s1, w) := LowerExpr(s.cases[i].value, a);
    var (s2, eq) := NextTemp(s1);
    EmitIs(s2, Bin(eq, Eq, p.v, w));
    EmitIs(Emit(s2, Bin(eq, Eq, p.v, w)), BranchIf(eq, p.labels[2 * i + 1], OtherLabel(p, s, i)));
    JumpTypes(LowerAll(s.cases[i].body, BodyAt(p, s, i, st)), p.doneL);
  }

  lemma JoinLast(doneL: Label, c: Ctx, f: Function)
    requires Ok(CloseSwitch(doneL, c)) && Within(CloseSwitch(doneL, c), f)
    ensures Join(f, |c.blocks|, At(AddBlock(c, doneL), |c.blocks|))
  {
    hide Within;
    var d := At(AddBlock(c, doneL), |c.blocks|);
    CloseIs(doneL, c, f);
    forall i | 0 <= i < |d.blocks|
      ensures d.blocks[i].tag == CloseSwitch(doneL, c).blocks[i].tag
    {
    }
    hide CloseSwitch;
  }

  lemma FirstTemp(t: Ctx, r: Ctx, prefixes: seq<string>, l: Label)
    requires r == OpenBlocks(t, prefixes).0
    ensures Emit(r, Jump(l)).tempId == t.tempId
  {
    OpenBlocksIs(t, prefixes);
  }

  lemma SwitchCodeIs(p: SwitchPlan, s: Stmt, st: Ctx, t: Ctx, first: Ctx, dfltAt: Ctx, at: Ctx, f: Function,
                     g: seq<Decl>, slots: seq<Name>)
    requires s.SSwitch?
    requires var (s1, v) := LowerExpr(s.e, st);
             t == s1.(labelId := s1.labelId + 1, breaks := s1.breaks + [p.doneL]) &&
             p.v == v && LabelsThere(p, s, f) && |p.labels| > 0 && SameTargets(st, s1) &&
             first.tempId == s1.tempId && JumpsTo(f, s1, p.labels[0], CaseBlock(p, s, 0))
    requires |p.labels| >= 2 * |s.cases| && CasesCode(p, s, 0, first, t, f, g, slots)
    requires s.default.Otherwise? ==>
               Arm(f, p.default, dfltAt, LowerAll(s.default.body, dfltAt), p.doneL, p.done, g, slots) &&
               SameTargets(t, dfltAt)
    requires s.default.NoDefault? ==> p.default == p.done
    requires Join(f, p.done, at) && LowerStmt(s, st).blocks == Emit(at, Nop).blocks && LowerStmt(s, st).cur == at.cur
    ensures SwitchCode(p, s, st, first, dfltAt, at, f, g, slots)
  {
    hide LowerExpr;
    hide LabelsThere;
    hide SameTargets;
    hide JumpsTo;
    hide CasesCode;
    hide Arm;
    hide Join;
    hide LowerStmt;
    hide LowerAll;
    hide Emit;
  }

  lemma SwitchJumps(p: SwitchPlan, s: Stmt, s1: Ctx, t: Ctx, prefixes: seq<string>, f: Function)
    requires LabelsThere(p, s, f) && |p.labels| > 0 && Ok(t) &&
             (s.default.Otherwise? ==> p.default == p.n + 2 * |s.cases|)
    requires t.blocks == s1.blocks && t.cur == s1.cur && Within(Emit(OpenBlocks(t, prefixes).0, Jump(p.labels[0])), f)
    ensures JumpsTo(f, s1, p.labels[0], CaseBlock(p, s, 0))
  {
    ForkOpen(f, t, prefixes, Jump(p.labels[0]));
    assert Emit(t, Jump(p.labels[0])).blocks == Emit(s1, Jump(p.labels[0])).blocks;
    assert IsBlock(f, p.n + 0, p.labels[0]);
    hide Emit;
    hide Within;
    WithinSame(Emit(t, Jump(p.labels[0])), Emit(s1, Jump(p.labels[0])), f);
  }

  lemma ArmsIs(p: SwitchPlan, s: Stmt, first: Ctx)
    requires s.SSwitch? && 2 * |s.cases| <= |p.labels|
    ensures var s5 := AllCases(p, s, 0, first);
            Arms(p, s, first) ==
            if s.default.Otherwise? then
              JumpUnlessTerminated(LowerAll(s.default.body, At(s5, p.n + 2 * |s.cases|)), p.doneL) else s5
  {
    hide AllCases;
    hide LowerAll;
    hide JumpUnlessTerminated;
  }
}
