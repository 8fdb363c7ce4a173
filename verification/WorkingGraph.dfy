/** What every lowering step keeps: labels stay distinct, earlier code is only extended, and only
    the current block and blocks added later change. */
module WorkingGraph {
  import opened Ir
  import opened Source
  import opened Lowering

  ghost predicate Bounded(l: Label, n: nat) {
    l.Fresh? ==> l.id <= n
  }

  ghost predicate Distinct(blocks: seq<Block>) {
    forall i, j :: 0 <= i < j < |blocks| ==> blocks[i].tag != blocks[j].tag
  }

  ghost predicate Tagged(st: Ctx, n: nat) {
    Distinct(st.blocks) && forall i :: 0 <= i < |st.blocks| ==> Bounded(st.blocks[i].tag, n)
  }

  ghost predicate Ok(st: Ctx) {
    st.cur < |st.blocks| && Tagged(st, st.labelId)
  }

  ghost predicate Counts(a: Ctx, b: Ctx) {
    a.tempId <= b.tempId && a.labelId <= b.labelId && a.varId <= b.varId && |a.blocks| <= |b.blocks|
  }

  ghost predicate Kept(a: Ctx, b: Ctx) {
    |a.blocks| <= |b.blocks| &&
    forall i :: 0 <= i < |a.blocks| ==>
                  a.blocks[i].tag == b.blocks[i].tag && a.blocks[i].instrs <= b.blocks[i].instrs &&
                  (i != a.cur ==> b.blocks[i] == a.blocks[i])
  }

  ghost predicate NewTags(a: Ctx, b: Ctx) {
    forall i :: |a.blocks| <= i < |b.blocks| ==> b.blocks[i].tag.Fresh? && b.blocks[i].tag.id > a.labelId
  }

  ghost predicate Stays(a: Ctx, k: nat) {
    k == a.cur || |a.blocks| <= k
  }

  ghost predicate SameTargets(a: Ctx, b: Ctx) {
    b.breaks == a.breaks && b.loops == a.loops
  }

  /** `b` continues `a`, and its jump targets are the ones of `a`. */
  ghost predicate Grows(a: Ctx, b: Ctx) {
    Counts(a, b) && Kept(a, b) && NewTags(a, b) && Stays(a, b.cur) && SameTargets(a, b)
  }

  // ----- composition -----

  lemma GrowsTrans(a: Ctx, b: Ctx, c: Ctx)
    requires Grows(a, b) && Grows(b, c)
    ensures Grows(a, c)
  {
  }

  /** Moving on to another block, the current one or one added since `a`. */
  lemma MoveGrows(a: Ctx, b: Ctx, k: nat)
    requires Grows(a, b) && Ok(b) && Stays(a, k) && k < |b.blocks|
    ensures Ok(At(b, k)) && Grows(a, At(b, k))
  {
  }

  /** Counters may run ahead; scopes and types do not matter to the shape. */
  lemma MoreGrows(a: Ctx, b: Ctx, c: Ctx)
    requires Grows(a, b) && Ok(b) && SameTargets(b, c)
    requires c.blocks == b.blocks && c.cur == b.cur && b.tempId <= c.tempId && b.labelId <= c.labelId &&
             b.varId <= c.varId
    ensures Ok(c) && Grows(a, c) && Grows(b, c)
  {
  }

  /** Code between pushing targets on `b` and restoring them. */
  lemma PopGrows(a: Ctx, b: Ctx, p: Ctx, c: Ctx, d: Ctx)
    requires Grows(a, b) && Ok(b) && Grows(p, c) && Ok(c)
    requires p.blocks == b.blocks && p.cur == b.cur && p.tempId == b.tempId && p.labelId == b.labelId &&
             p.varId == b.varId
    requires d == c.(breaks := b.breaks, loops := b.loops)
    ensures Ok(d) && Grows(a, d)
  {
  }

  lemma PushOk(b: Ctx, p: Ctx)
    requires Ok(b)
    requires p.blocks == b.blocks && p.cur == b.cur && p.labelId == b.labelId
    ensures Ok(p) && Grows(p, p)
  {
  }

  lemma CountsOf(a: Ctx, b: Ctx)
    requires Grows(a, b)
    ensures a.tempId <= b.tempId && a.varId <= b.varId && a.labelId <= b.labelId && |a.blocks| <= |b.blocks|
  {
  }

  lemma TargetsOf(a: Ctx, b: Ctx)
    requires Grows(a, b)
    ensures SameTargets(a, b)
  {
  }

  lemma GrowsSelf(a: Ctx)
    requires Ok(a)
    ensures Grows(a, a)
  {
  }

  lemma EmitThen(a: Ctx, b: Ctx, i: Instr)
    requires Grows(a, b) && Ok(b)
    ensures Ok(Emit(b, i)) && Grows(a, Emit(b, i)) && Emit(b, i).cur == b.cur && |Emit(b, i).blocks| == |b.blocks|
  {
    EmitGrows(b, i);
    GrowsTrans(a, b, Emit(b, i));
  }

  lemma JumpThen(a: Ctx, b: Ctx, l: Label)
    requires Grows(a, b) && Ok(b)
    ensures var r := JumpUnlessTerminated(b, l); Ok(r) && Grows(a, r) && r.cur == b.cur && |r.blocks| == |b.blocks|
  {
    JumpGrows(b, l);
    GrowsTrans(a, b, JumpUnlessTerminated(b, l));
  }

  // ----- single steps -----

  lemma EmitGrows(st: Ctx, i: Instr)
    requires Ok(st)
    ensures Ok(Emit(st, i)) && Grows(st, Emit(st, i))
    ensures Emit(st, i).cur == st.cur && |Emit(st, i).blocks| == |st.blocks|
    ensures Emit(st, i).blocks[st.cur].instrs == st.blocks[st.cur].instrs + [i]
  {
  }

  lemma JumpGrows(st: Ctx, l: Label)
    requires Ok(st)
    ensures Ok(JumpUnlessTerminated(st, l)) && Grows(st, JumpUnlessTerminated(st, l))
    ensures JumpUnlessTerminated(st, l).cur == st.cur && |JumpUnlessTerminated(st, l).blocks| == |st.blocks|
  {
  }

  lemma {:induction false} EmitAllGrows(st: Ctx, code: seq<Instr>)
    requires Ok(st)
    ensures Ok(EmitAll(st, code)) && Grows(st, EmitAll(st, code)) && EmitAll(st, code).cur == st.cur
    ensures EmitAll(st, code).scope == st.scope && EmitAll(st, code).types == st.types &&
            EmitAll(st, code).tempId == st.tempId
    decreases |code|
  {
    if code != [] {
      EmitGrows(st, code[0]);
      EmitAllGrows(Emit(st, code[0]), code[1..]);
      GrowsTrans(st, Emit(st, code[0]), EmitAll(st, code));
    }
  }

  lemma EmitBinGrows(st: Ctx, op: BinOp, l: Name, r: Name, intLike: bool)
    requires Ok(st)
    ensures var x := EmitBin(st, op, l, r, intLike).0;
            Ok(x) && Grows(st, x) && x.cur == st.cur && x.scope == st.scope && x.types == st.types
  {
    EmitAllGrows(st, Checks(op, l, r, intLike));
  }

  ghost function Empties(labels: seq<Label>): (bs: seq<Block>)
    ensures |bs| == |labels|
    ensures forall i :: 0 <= i < |labels| ==> bs[i] == Block(labels[i], [])
  {
    seq(|labels|, i requires 0 <= i < |labels| => Block(labels[i], []))
  }

  lemma {:induction false} OpenBlocksIs(st: Ctx, prefixes: seq<string>)
    ensures var (r, labels) := OpenBlocks(st, prefixes);
            r == st.(labelId := st.labelId + |prefixes|, blocks := st.blocks + Empties(labels)) &&
            forall i :: 0 <= i < |prefixes| ==> labels[i] == Fresh(prefixes[i], st.labelId + 1 + i)
  {
    var (r, labels) := OpenBlocks(st, prefixes);
    if prefixes != [] {
      var (s1, ls) := OpenBlocks(st, prefixes[..|prefixes| - 1]);
      OpenBlocksIs(st, prefixes[..|prefixes| - 1]);
      assert Empties(labels) == Empties(ls) + [Block(labels[|ls|], [])];
      assert st.blocks + Empties(labels) == s1.blocks + [Block(labels[|ls|], [])];
    } else {
      assert st.blocks + Empties(labels) == st.blocks;
    }
  }

  lemma OpenBlocksGrows(st: Ctx, prefixes: seq<string>)
    requires Ok(st)
    ensures var (r, labels) := OpenBlocks(st, prefixes);
            Ok(r) && Grows(st, r) && r ==
                                     st.(labelId := st.labelId + |prefixes|, blocks := st.blocks + Empties(labels)) &&
            forall i :: 0 <= i < |prefixes| ==> labels[i] == Fresh(prefixes[i], st.labelId + 1 + i)
  {
    OpenBlocksIs(st, prefixes);
    var (r, labels) := OpenBlocks(st, prefixes);
    forall i, j | 0 <= i < j < |r.blocks|
      ensures r.blocks[i].tag != r.blocks[j].tag
    {
      if j >= |st.blocks| && i < |st.blocks| {
        assert Bounded(st.blocks[i].tag, st.labelId);
      }
    }
  }

  // ----- expressions -----

  lemma OpenLogicGrows(isAnd: bool, l: Name, st: Ctx)
    requires Ok(st)
    ensures var (r, k) := OpenLogic(isAnd, l, st);
            Ok(r) && Grows(st, r) && r.scope == st.scope && r.types == st.types &&
            k.base == |st.blocks| == r.cur && |r.blocks| == |st.blocks| + 3
    ensures var (r, k) := OpenLogic(isAnd, l, st);
            k.cont == Fresh("logic_cont_", st.labelId + 4) && k.done == Fresh("logic_done_", st.labelId + 3) &&
            r.labelId == st.labelId + 4 && k.dst == Temp(st.tempId + 1) && r.tempId == st.tempId + 1 &&
            forall i :: 0 <= i < |r.blocks| ==> r.blocks[i].tag != k.cont
  {
    hide Grows;
    hide Emit;
    OpenBlocksGrows(st, ["logic_right_", "logic_short_", "logic_done_"]);
    var (s1, labels) := OpenBlocks(st, ["logic_right_", "logic_short_", "logic_done_"]);
    var s3 := s1.(labelId := st.labelId + 4, tempId := st.tempId + 1);
    var right, short, done := labels[0], labels[1], labels[2];
    MoreGrows(st, s1, s3);
    FillGrows(st, s3, BranchIf(l, if isAnd then right else short, if isAnd then short else right), |st.blocks| + 1,
              Const(Temp(st.tempId + 1), RawBool(!isAnd)), Jump(done), |st.blocks|);
  }

  /** One instruction in the current block, two in a block added since `a`, then on to block `k`. */
  lemma FillGrows(a: Ctx, b: Ctx, i: Instr, j: nat, i1: Instr, i2: Instr, k: nat)
    requires Ok(b) && Grows(a, b) && b.cur == a.cur && |a.blocks| <= j < |b.blocks| && |a.blocks| <= k < |b.blocks|
    ensures var r := At(Emit(Emit(At(Emit(b, i), j), i1), i2), k);
            Ok(r) && Grows(a, r) && |r.blocks| == |b.blocks| && r.cur == k &&
            r.scope == b.scope && r.types == b.types && r.labelId == b.labelId && r.tempId == b.tempId &&
            forall m :: 0 <= m < |r.blocks| ==> r.blocks[m].tag == b.blocks[m].tag
  {
  }

  lemma CloseLogicGrows(st: Ctx, k: Logic, r: Name, x: Ctx)
    requires Ok(st) && k.base == |st.blocks| && k.cont.Fresh? && k.cont.id > st.labelId
    requires Ok(x) && Grows(st, x) && |st.blocks| + 3 <= |x.blocks| && |st.blocks| <= x.cur
    requires k.cont.id <= x.labelId && forall i :: 0 <= i < |x.blocks| ==> x.blocks[i].tag != k.cont
    ensures var y := CloseLogic(r, k, x);
            Ok(y) && Grows(st, y) && y.scope == x.scope && y.types == x.types && y.tempId == x.tempId
  {
    hide Grows;
    hide Ok;
    hide Emit;
    EmitThen(st, x, Copy(k.dst, r));
    EmitThen(st, Emit(x, Copy(k.dst, r)), Jump(k.done));
    var s0 := Emit(Emit(x, Copy(k.dst, r)), Jump(k.done));
    EmitIs(x, Copy(k.dst, r));
    EmitIs(Emit(x, Copy(k.dst, r)), Jump(k.done));
    AddLastGrows(st, s0, k.cont);
    var s1 := AddBlock(s0, k.cont);
    MoveGrows(st, s1, k.base + 2);
    EmitThen(st, At(s1, k.base + 2), Nop);
    EmitThen(st, Emit(At(s1, k.base + 2), Nop), Jump(k.cont));
    EmitIs(At(s1, k.base + 2), Nop);
    EmitIs(Emit(At(s1, k.base + 2), Nop), Jump(k.cont));
    MoveGrows(st, Emit(Emit(At(s1, k.base + 2), Nop), Jump(k.cont)), |s1.blocks| - 1);
  }

  /** Emitting changes nothing but the current block's code. */
  lemma EmitIs(st: Ctx, i: Instr)
    ensures var r := Emit(st, i);
            r.scope == st.scope && r.types == st.types && r.tempId == st.tempId && r.labelId == st.labelId &&
            r.varId == st.varId &&
            r.breaks == st.breaks && r.loops == st.loops && r.cur == st.cur && |r.blocks| == |st.blocks|
    ensures forall j :: 0 <= j < |st.blocks| ==> Emit(st, i).blocks[j].tag == st.blocks[j].tag
  {
  }

  lemma AddLastGrows(a: Ctx, b: Ctx, l: Label)
    requires Ok(b) && Grows(a, b) && l.Fresh? && a.labelId < l.id <= b.labelId
    requires forall i :: 0 <= i < |b.blocks| ==> b.blocks[i].tag != l
    ensures Ok(AddBlock(b, l)) && Grows(a, AddBlock(b, l))
  {
  }

  lemma TempGrows(st: Ctx, count: nat)
    requires Ok(st)
    ensures Ok(st.(tempId := st.tempId + count)) && Grows(st, st.(tempId := st.tempId + count))
  {
  }

  lemma EmitTempGrows(st: Ctx, i: Instr)
    requires Ok(st)
    ensures var r := Emit(NextTemp(st).0, i);
            Ok(r) && Grows(st, r) && r.scope == st.scope && r.types == st.types
  {
  }

  lemma {:induction false} LowerExprGrows(e: Expr, st: Ctx)
    requires Ok(st)
    ensures var r := LowerExpr(e, st).0;
            Ok(r) && Grows(st, r) && r.scope == st.scope && r.types == st.types
    decreases e, 1
  {
    hide Grows;
    hide Ok;
    hide Emit;
    match e {
      case ELit(n) => EmitTempGrows(st, Const(Temp(st.tempId + 1), IntText(n)));
      case EBool(b) => EmitTempGrows(st, Const(Temp(st.tempId + 1), RawBool(b)));
      case EVar(x) => EmitTempGrows(st, LoadVar(Temp(st.tempId + 1), Resolve(st, x)));
      case EUn(op, arg) =>
        if op == Neg && arg == ELit(-INT_MIN) {
          EmitTempGrows(st, Const(Temp(st.tempId + 1), IntText(INT_MIN)));
        } else {
          LowerExprGrows(arg, st);
          var (s1, v) := LowerExpr(arg, st);
          EmitTempGrows(s1, Unary(Temp(s1.tempId + 1), op, v));
          GrowsTrans(st, s1, LowerExpr(e, st).0);
        }
      case EBin(_, _, _) => BinGrows(e, st);
      case ELogic(_, _, _) => LogicGrows(e, st);
      case EInc(up, prefix, x) => IncGrows(up, prefix, x, st);
      case ECond(_, _, _) => CondGrows(e, st);
    }
  }

  lemma {:induction false} BinGrows(e: Expr, st: Ctx)
    requires Ok(st) && e.EBin?
    ensures var r := LowerExpr(e, st).0;
            Ok(r) && Grows(st, r) && r.scope == st.scope && r.types == st.types
    decreases e, 0
  {
    hide Grows;
    hide Ok;
    hide EmitBin;
    LowerExprGrows(e.left, st);
    var (s1, l) := LowerExpr(e.left, st);
    LowerExprGrows(e.right, s1);
    var (s2, r) := LowerExpr(e.right, s1);
    EmitBinGrows(s2, e.op, l, r, Guess(e.left, s2) == TInt && Guess(e.right, s2) == TInt);
    GrowsTrans(st, s1, s2);
    GrowsTrans(st, s2, LowerExpr(e, st).0);
  }

  lemma {:induction false} LogicGrows(e: Expr, st: Ctx)
    requires Ok(st) && e.ELogic?
    ensures var r := LowerExpr(e, st).0;
            Ok(r) && Grows(st, r) && r.scope == st.scope && r.types == st.types
    decreases e, 0
  {
    hide Grows;
    hide Ok;
    hide OpenLogic;
    hide CloseLogic;
    LowerExprGrows(e.left, st);
    var (s1, l) := LowerExpr(e.left, st);
    OpenLogicGrows(e.isAnd, l, s1);
    var (s2, k) := OpenLogic(e.isAnd, l, s1);
    LowerExprGrows(e.right, s2);
    var (s3, r) := LowerExpr(e.right, s2);
    OpenCloseGrows(e.isAnd, l, s1, r, s3);
    GrowsTrans(st, s1, CloseLogic(r, k, s3));
  }

  lemma {:induction false} CondGrows(e: Expr, st: Ctx)
    requires Ok(st) && e.ECond?
    ensures var r := LowerExpr(e, st).0;
            Ok(r) && Grows(st, r) && r.scope == st.scope && r.types == st.types
    decreases e, 0
  {
    hide Grows;
    hide Ok;
    hide Emit;
    LowerExprGrows(e.cond, st);
    var (s1, c) := LowerExpr(e.cond, st);
    LowerExprGrows(e.yes, s1);
    var (s2, a) := LowerExpr(e.yes, s1);
    LowerExprGrows(e.no, s2);
    var (s3, b) := LowerExpr(e.no, s2);
    EmitTempGrows(s3, Select(Temp(s3.tempId + 1), c, a, b));
    GrowsTrans(st, s1, s2);
    GrowsTrans(st, s2, s3);
    GrowsTrans(st, s3, LowerExpr(e, st).0);
  }

  lemma IncGrows(up: bool, prefix: bool, x: string, st: Ctx)
    requires Ok(st)
    ensures var r := LowerExpr(EInc(up, prefix, x), st).0;
            Ok(r) && Grows(st, r) && r.scope == st.scope && r.types == st.types
  {
    var name := Resolve(st, x);
    var cur, one, next := Temp(st.tempId + 1), Temp(st.tempId + 2), Temp(st.tempId + 3);
    TempGrows(st, 3);
    var code := [LoadVar(cur, name), Const(one, IntText(1)), Bin(next, if up then Add else Sub, cur, one),
                 StoreVar(name, next)];
    EmitAllGrows(st.(tempId := st.tempId + 3), code);
    assert code[1..][1..][1..] == [code[3]];
  }

  /** The block added last has a label drawn before the right operand was lowered. */
  lemma OpenCloseGrows(isAnd: bool, l: Name, st: Ctx, r: Name, x: Ctx)
    requires Ok(st)
    requires var s2 := OpenLogic(isAnd, l, st).0; Ok(x) && Grows(s2, x)
    ensures var y := CloseLogic(r, OpenLogic(isAnd, l, st).1, x);
            Ok(y) && Grows(st, y) && y.scope == x.scope && y.types == x.types && y.tempId == x.tempId
  {
    OpenLogicGrows(isAnd, l, st);
    var (s2, k) := OpenLogic(isAnd, l, st);
    GrowsTrans(st, s2, x);
    forall i | 0 <= i < |x.blocks|
      ensures x.blocks[i].tag != k.cont
    {
      if i < |st.blocks| {
        assert Bounded(st.blocks[i].tag, st.labelId);
      } else if i < |s2.blocks| {
        assert x.blocks[i].tag == s2.blocks[i].tag;
      }
    }
    CloseLogicGrows(st, k, r, x);
  }

  lemma ExprThen(a: Ctx, b: Ctx, e: Expr)
    requires Grows(a, b) && Ok(b)
    ensures var r := LowerExpr(e, b).0; Ok(r) && Grows(a, r) && |b.blocks| <= |r.blocks|
  {
    LowerExprGrows(e, b);
    GrowsTrans(a, b, LowerExpr(e, b).0);
  }

  lemma OpenThen(a: Ctx, b: Ctx, prefixes: seq<string>)
    requires Grows(a, b) && Ok(b)
    ensures var r := OpenBlocks(b, prefixes).0;
            Ok(r) && Grows(a, r) && r.cur == b.cur && |r.blocks| == |b.blocks| + |prefixes|
  {
    OpenBlocksGrows(b, prefixes);
    GrowsTrans(a, b, OpenBlocks(b, prefixes).0);
  }

  lemma CloseSwitchGrows(st: Ctx, a: Ctx, u: Ctx, t: Ctx, c: Ctx, doneL: Label)
    requires Ok(a) && Grows(st, a) && Ok(c) && Grows(t, c)
    requires doneL.Fresh? && doneL.id == a.labelId + 1
    requires u == a.(labelId := a.labelId + 1) && t == u.(breaks := u.breaks + [doneL])
    ensures Ok(CloseSwitch(doneL, c)) && Grows(st, CloseSwitch(doneL, c))
  {
    TargetsOf(t, c);
    MoreGrows(st, a, u);
    GrowsSelf(u);
    hide Grows;
    hide Emit;
    var d := c.(breaks := u.breaks, loops := u.loops);
    PopGrows(u, u, t, c, d);
    LastBlockGrows(a, u, d, doneL);
    var e := AddBlock(d, doneL);
    GrowsTrans(st, a, At(e, |e.blocks| - 1));
    EmitThen(st, At(e, |e.blocks| - 1), Nop);
    EmitTwin(At(AddBlock(c, doneL), |c.blocks|), u.breaks, Nop);
  }

  /** Emitting commutes with restoring the break targets. */
  lemma EmitTwin(st: Ctx, breaks: seq<Label>, i: Instr)
    ensures Emit(st, i).(breaks := breaks) == Emit(st.(breaks := breaks), i)
  {
  }

  /** `a` drew the label `doneL` on the way to `b`, and no block carries it yet. */
  lemma LastBlockGrows(a: Ctx, b: Ctx, c: Ctx, doneL: Label)
    requires Ok(a) && b.blocks == a.blocks && b.cur == a.cur && Counts(a, b) && SameTargets(a, b)
    requires doneL.Fresh? && doneL.id == a.labelId + 1 == b.labelId
    requires Ok(c) && Grows(b, c)
    ensures var r := AddBlock(c, doneL); Ok(At(r, |r.blocks| - 1)) && Grows(a, At(r, |r.blocks| - 1))
  {
    forall i | 0 <= i < |c.blocks|
      ensures c.blocks[i].tag != doneL
    {
      if i < |a.blocks| {
        assert Bounded(a.blocks[i].tag, a.labelId);
      }
    }
  }
}
